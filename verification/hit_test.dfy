/** The point-in-disk test `in_circle` (MOT_s.py lines 154-159). */
module HitTest {
  import opened Geometry

  /** The object the test is called on: a centre and a radius. */
  datatype Disk = Disk(x: real, y: real, radius: real)

  /** The point (px, py) lies strictly inside the disk. */
  function InCircle(disk: Disk, px: real, py: real): (inside: bool)
    ensures inside ==> disk.radius > 0.0
    ensures disk.radius >= 0.0 ==>
      (inside <==> Dist2(px, py, disk.x, disk.y) < Sq(disk.radius))
    ensures Dist2(px, py, disk.x, disk.y) == Sq(disk.radius) ==> !inside
  {
    DistBelow(Dist2(px, py, disk.x, disk.y), disk.radius)
  }

  /** The test agrees with comparing the Euclidean distance `s` (any
      non-negative root of the squared distance) strictly against the radius. */
  lemma InCircleIsDistanceTest(disk: Disk, px: real, py: real, s: real)
    requires s >= 0.0 && s * s == Dist2(px, py, disk.x, disk.y)
    ensures InCircle(disk, px, py) <==> s < disk.radius
  {
    SqrtComparisons(Dist2(px, py, disk.x, disk.y), s, disk.radius);
  }

  /** The centre is inside exactly when the radius is positive, and a point on
      the circumference is not. */
  lemma CentreAndRim(disk: Disk)
    requires disk.radius > 0.0
    ensures InCircle(disk, disk.x, disk.y)
    ensures !InCircle(disk, disk.x + disk.radius, disk.y)
  {
    assert Dist2(disk.x, disk.y, disk.x, disk.y) == 0.0;
    assert Dist2(disk.x + disk.radius, disk.y, disk.x, disk.y) == Sq(disk.radius);
  }
}
