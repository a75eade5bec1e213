/** Points of the plane with exact real coordinates (the z component of the
    solver's three-vectors is always 0 in the modelled code). */
module Plane {

  datatype Point2 = Point2(x: real, y: real)

  function SquaredDistance(u: Point2, w: Point2): real {
    (u.x - w.x) * (u.x - w.x) + (u.y - w.y) * (u.y - w.y)
  }
}
