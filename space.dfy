/** Points and vectors of the coordinate spaces the rasteriser and the mesh use.
    The source tags each with a phantom space type over 32-bit floats; here the
    coordinates are exact reals and the space is carried by the datatype name. */
module Space {

  /** A point of screen space: pixels, x to the right, y as the frame buffer counts rows. */
  datatype ScreenPoint = ScreenPoint(x: real, y: real)

  /** A displacement in screen space. */
  datatype ScreenVector = ScreenVector(x: real, y: real)

  /** A point of model space, as a mesh stores its vertices. */
  datatype ModelPoint = ModelPoint(x: real, y: real, z: real)

  /** Point minus point is a vector. */
  function Minus(p: ScreenPoint, q: ScreenPoint): ScreenVector
  {
    ScreenVector(p.x - q.x, p.y - q.y)
  }

  function Dot(u: ScreenVector, v: ScreenVector): real
  {
    u.x * v.x + u.y * v.y
  }

  /** The z component of the 3D cross product of two plane vectors. */
  function Cross(u: ScreenVector, v: ScreenVector): real
  {
    u.x * v.y - u.y * v.x
  }

  /** The point a + t * (b - a) of the line through a and b. */
  function Lerp(a: ScreenPoint, b: ScreenPoint, t: real): ScreenPoint
  {
    ScreenPoint(a.x + t * (b.x - a.x), a.y + t * (b.y - a.y))
  }

  function Abs(n: int): nat
  {
    if n < 0 then -n else n
  }
}
