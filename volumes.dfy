/** Bounding volumes. The capsule geometry (covariance fit, overlap test,
    volume) lives in a library outside this model, so a volume is a free
    term: the capsule a leaf is built with, the fit of two volumes, and a
    volume moved by a matrix. Only the `Empty` volume of
    boundingVolume/Empty.java has behaviour of its own. */
module Volumes {
  import opened Vectors
  import opened Matrices

  datatype Volume =
    | Empty
    | Capsule(p1: Vec3, p2: Vec3, radius: real)
    | Fitted(left: Volume, right: Volume)
    | Moved(volume: Volume, m: Mat)

  /** The two-argument `combine(left, right)` of a capsule volume: one
      capsule fitted around both. */
  function Combine(left: Volume, right: Volume): (v: Volume)
    ensures v.Fitted? && v.left == left && v.right == right
  {
    Fitted(left, right)
  }

  /** Empty.combine(other): hands back its argument unchanged. */
  function EmptyCombine(other: Volume): (v: Volume)
    ensures v == other
  {
    other
  }

  /** `v.transform(m)`: the empty volume stays itself, any other moves. */
  function Transform(v: Volume, m: Mat): (r: Volume)
    ensures v.Empty? <==> r.Empty?
    ensures !v.Empty? ==> r == Moved(v, m)
  {
    if v.Empty? then v else Moved(v, m)
  }

  /** Empty.isOverlaping: never overlaps anything. */
  function EmptyIsOverlapping(other: Volume): (r: bool)
    ensures !r
  {
    false
  }

  /** Empty.volume. */
  function EmptyVolume(): (r: real)
    ensures r == 0.0
  {
    0.0
  }

  /** Transforming the empty volume any number of times leaves it empty,
      and it is the only volume a transform maps to Empty. */
  lemma EmptyStaysEmpty(v: Volume, m1: Mat, m2: Mat)
    ensures Transform(Transform(Empty, m1), m2) == Empty
    ensures Transform(v, m1) == Empty <==> v == Empty
  {
  }
}
