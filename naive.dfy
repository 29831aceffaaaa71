/** The naive protein representation of
    dataStructure/NaiveProteinRepresentation.java: the backbone atoms kept as
    a plain list of absolute positions, where a bond rotation rewrites every
    atom after the bond. */
module NaiveProteins {
  import opened Util
  import opened Vectors
  import opened Matrices

  /** The IndexOutOfBoundsException of the list reads at lines 70-71. */
  datatype NaiveError = AtomOutOfBounds

  /** The matrix built at lines 74-76: the rotation by `angle` about the
      bond from `start` to `end`, with the translation removed. It is the
      rotation block on its own, moving no point off the origin. */
  function BondRotation(trig: Trig, start: Vec3, end: Vec3, angle: real): (m: Mat)
    ensures m == WithBlock(Identity(), RotationBlock(trig, VectorTo(start, end), angle))
    ensures TranslationOf(m) == Zero() && Apply(m, Zero()) == Zero()
  {
    Rotated(trig, Translation(VectorTo(start, end)), angle).(a14 := 0.0, a24 := 0.0, a34 := 0.0)
  }

  /** Lines 74-76: a fresh matrix holding the rotation by `angle` about
      the bond from `start` to `end`, built as a translation by the bond
      vector, rotated, with the translation then zeroed. */
  method BondTransform(trig: Trig, start: Vec3, end: Vec3, angle: real) returns (t: TransformationMatrix)
    ensures fresh(t) && t.Value() == BondRotation(trig, start, end, angle)
  {
    var v := VectorTo(start, end);
    t := new TransformationMatrix.Translate(v.x, v.y, v.z);
    t.Rotate(trig, angle);
    ghost var rotated := t.Value();
    t.a14, t.a24, t.a34 := 0.0, 0.0, 0.0;
    assert t.Value() == rotated.(a14 := 0.0, a24 := 0.0, a34 := 0.0);
  }

  /** Line 86: an atom rotated about `base`. */
  function Moved(m: Mat, base: Vec3, p: Vec3): Vec3
  {
    Add(Apply(m, Subtract(p, base)), base)
  }

  /** A translation-free matrix leaves the base where it is. */
  lemma MovedFixesBase(m: Mat, base: Vec3)
    requires TranslationOf(m) == Zero()
    ensures Moved(m, base, base) == base
  {
    assert Subtract(base, base) == Zero();
    RowOfZero(m.a11, m.a12, m.a13, m.a14);
    RowOfZero(m.a21, m.a22, m.a23, m.a24);
    RowOfZero(m.a31, m.a32, m.a33, m.a34);
  }

  /** A translation-free matrix moves the atoms rigidly about the base:
      the vector between any two moved atoms is the old vector between
      them, rotated. */
  lemma MovedRigidly(m: Mat, base: Vec3, p: Vec3, q: Vec3)
    requires TranslationOf(m) == Zero()
    ensures Subtract(Moved(m, base, p), Moved(m, base, q)) == Apply(m, Subtract(p, q))
  {
    var u, w := Subtract(p, base), Subtract(q, base);
    ApplyLinear(m, u, w);
    assert Subtract(u, w) == Subtract(p, q);
    var a, b := Apply(m, u), Apply(m, w);
    assert Subtract(Add(a, base), Add(b, base)) == Subtract(a, b);
  }

  /** Without a translation, applying a matrix commutes with taking
      differences. */
  lemma ApplyLinear(m: Mat, u: Vec3, w: Vec3)
    requires TranslationOf(m) == Zero()
    ensures Subtract(Apply(m, u), Apply(m, w)) == Apply(m, Subtract(u, w))
  {
    var a, b := Apply(m, u), Apply(m, w);
    RowX(m, u, w);
    RowY(m, u, w);
    RowZ(m, u, w);
    assert Subtract(a, b) == Vec3(a.x - b.x, a.y - b.y, a.z - b.z);
  }

  lemma RowX(m: Mat, u: Vec3, w: Vec3)
    requires m.a14 == 0.0
    ensures Apply(m, u).x - Apply(m, w).x == Apply(m, Subtract(u, w)).x
  {
    var d := Subtract(u, w);
    var a, b, c := m.a11, m.a12, m.a13;
    assert d.x == u.x - w.x && d.y == u.y - w.y && d.z == u.z - w.z;
    assert Apply(m, u).x == a * u.x + b * u.y + c * u.z;
    assert Apply(m, w).x == a * w.x + b * w.y + c * w.z;
    assert Apply(m, d).x == a * d.x + b * d.y + c * d.z;
    RowDifference(a, b, c, u, w);
  }

  lemma RowY(m: Mat, u: Vec3, w: Vec3)
    requires m.a24 == 0.0
    ensures Apply(m, u).y - Apply(m, w).y == Apply(m, Subtract(u, w)).y
  {
    var d := Subtract(u, w);
    var a, b, c := m.a21, m.a22, m.a23;
    assert d.x == u.x - w.x && d.y == u.y - w.y && d.z == u.z - w.z;
    assert Apply(m, u).y == a * u.x + b * u.y + c * u.z;
    assert Apply(m, w).y == a * w.x + b * w.y + c * w.z;
    assert Apply(m, d).y == a * d.x + b * d.y + c * d.z;
    RowDifference(a, b, c, u, w);
  }

  lemma RowZ(m: Mat, u: Vec3, w: Vec3)
    requires m.a34 == 0.0
    ensures Apply(m, u).z - Apply(m, w).z == Apply(m, Subtract(u, w)).z
  {
    var d := Subtract(u, w);
    var a, b, c := m.a31, m.a32, m.a33;
    assert d.x == u.x - w.x && d.y == u.y - w.y && d.z == u.z - w.z;
    assert Apply(m, u).z == a * u.x + b * u.y + c * u.z;
    assert Apply(m, w).z == a * w.x + b * w.y + c * w.z;
    assert Apply(m, d).z == a * d.x + b * d.y + c * d.z;
    RowDifference(a, b, c, u, w);
  }

  /** One row of a linear map commutes with taking differences. */
  lemma RowDifference(a: real, b: real, c: real, u: Vec3, w: Vec3)
    ensures (a * u.x + b * u.y + c * u.z) - (a * w.x + b * w.y + c * w.z)
         == a * (u.x - w.x) + b * (u.y - w.y) + c * (u.z - w.z)
  {
    assert a * u.x - a * w.x == a * (u.x - w.x);
    assert b * u.y - b * w.y == b * (u.y - w.y);
    assert c * u.z - c * w.z == c * (u.z - w.z);
  }

  lemma RowOfZero(c1: real, c2: real, c3: real, t: real)
    requires t == 0.0
    ensures c1 * 0.0 + c2 * 0.0 + c3 * 0.0 + t == 0.0
  {
  }

  /** Two positions closer than radius / 2. Comparing squared distances is
      exact here: a distance is never negative, so for a radius that is not
      positive no two atoms are close. */
  predicate Close(p: Vec3, q: Vec3, radius: real)
  {
    radius > 0.0 && 4.0 * LengthSq(Subtract(p, q)) < radius * radius
  }

  /** Closeness does not depend on the order of the two atoms. */
  lemma CloseSymmetric(p: Vec3, q: Vec3, radius: real)
    ensures Close(p, q, radius) <==> Close(q, p, radius)
  {
    var d, e := Subtract(p, q), Subtract(q, p);
    assert e == Vec3(-d.x, -d.y, -d.z);
    assert LengthSq(e) == LengthSq(d) by {
      assert (-d.x) * (-d.x) == d.x * d.x;
      assert (-d.y) * (-d.y) == d.y * d.y;
      assert (-d.z) * (-d.z) == d.z * d.z;
    }
  }

  class NaiveProteinRepresentation {
    /** The absolute backbone atom positions (`backboneAtoms`). */
    var atoms: seq<Vec3>

    /** NaiveProteinRepresentation(points), lines 45-48: the positions are
        the given points. */
    constructor (points: seq<Vec3>)
      ensures atoms == points
    {
      atoms := points;
    }

    /** getBackboneAtomPositions, lines 57-59: the stored positions. */
    function BackboneAtomPositions(): (r: seq<Vec3>)
      reads this
      ensures r == atoms
    {
      atoms
    }

    /** changeRotationAngle(i, angle), lines 68-90. Reading atoms i and i+1
        fails outside the list. Otherwise atoms up to i+1 stay, and every
        later atom is rotated by the same translation-free matrix about
        atom i+1. No lock is consulted. */
    method ChangeRotationAngle(trig: Trig, i: int, angle: real) returns (r: Outcome<NaiveError>)
      modifies this
      ensures r.Fail? <==> !(0 <= i && i + 1 < |old(atoms)|)
      ensures |atoms| == |old(atoms)|
      ensures r.Fail? ==> atoms == old(atoms)
      ensures r.Pass? ==> atoms[..i + 2] == old(atoms)[..i + 2]
      ensures r.Pass? ==> forall k :: i + 2 <= k < |atoms| ==>
        atoms[k] == Moved(BondRotation(trig, old(atoms)[i], old(atoms)[i + 1], angle), old(atoms)[i + 1], old(atoms)[k])
    {
      if !(0 <= i && i + 1 < |atoms|) {
        return Fail(AtomOutOfBounds);
      }
      var start := atoms[i];
      var end := atoms[i + 1];
      var transform := BondTransform(trig, start, end, angle);
      ghost var m := BondRotation(trig, start, end, angle);
      var base := end;
      ghost var before := atoms;
      var k := i + 2;
      while k < |atoms|
        invariant i + 2 <= k <= |atoms| == |before|
        invariant atoms[..i + 2] == before[..i + 2]
        invariant forall j :: k <= j < |atoms| ==> atoms[j] == before[j]
        invariant transform.Value() == m
        invariant forall j :: i + 2 <= j < k ==> atoms[j] == Moved(m, base, before[j])
      {
        var atom := transform.Transform(Subtract(atoms[k], base));
        atoms := atoms[k := Add(atom, base)];
        k := k + 1;
      }
      r := Pass;
    }

    /** isClashing, lines 92-104: some two distinct entries lie closer than
        radius / 2. The radius is CTLeaf.atomRadius, which is not part of
        this model. */
    method IsClashing(radius: real) returns (r: bool)
      ensures r <==> exists a, b :: 0 <= a < |atoms| && 0 <= b < |atoms| && a != b && Close(atoms[a], atoms[b], radius)
    {
      for a := 0 to |atoms|
        invariant forall a', b :: 0 <= a' < a && 0 <= b < |atoms| && a' != b ==> !Close(atoms[a'], atoms[b], radius)
      {
        for b := 0 to |atoms|
          invariant forall b' :: 0 <= b' < b && a != b' ==> !Close(atoms[a], atoms[b'], radius)
        {
          if a == b {
            continue;
          }
          if Close(atoms[a], atoms[b], radius) {
            return true;
          }
        }
      }
      return false;
    }
  }
}
