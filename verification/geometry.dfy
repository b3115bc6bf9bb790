/** Value types shared by the renderer: vectors, screen points, the cull mode,
    meshes, the camera, the transform and the draw colour (SDL_3D.h). */
module Geometry {

  /** Absolute value of an integer. */
  function Abs(n: int): (r: nat)
    ensures r == n || r == -n
  {
    if n < 0 then -n else n
  }

  /** The larger of two integers. */
  function Max(a: int, b: int): (r: int)
    ensures r >= a && r >= b
    ensures r == a || r == b
  {
    if a < b then b else a
  }

  /** The smaller of two integers. */
  function Min(a: int, b: int): (r: int)
    ensures r <= a && r <= b
    ensures r == a || r == b
  {
    if a < b then a else b
  }

  /** A 3D vector; the source uses single-precision floats, modelled as reals. */
  datatype Vec3 = Vec3(x: real, y: real, z: real) {

    /** Componentwise sum (glm's `+`). */
    function Plus(o: Vec3): Vec3 {
      Vec3(x + o.x, y + o.y, z + o.z)
    }

    /** Componentwise product (glm's `*` between two vectors). */
    function Times(o: Vec3): Vec3 {
      Vec3(x * o.x, y * o.y, z * o.z)
    }
  }

  /** The unit scale: multiplying by it leaves a vector unchanged. */
  const UnitScale: Vec3 := Vec3(1.0, 1.0, 1.0)

  /** A projected position on the screen, in floating-point pixels (glm's `vec2`). */
  datatype Vec2 = Vec2(x: real, y: real)

  /** A pixel position, as the integer coordinates handed to the line routines. */
  datatype Point = Point(x: int, y: int)

  /** C's conversion of a floating-point value to `int`: the fraction is
      dropped, rounding toward zero. */
  function Truncate(r: real): (n: int)
    ensures 0.0 <= r ==> n as real <= r < n as real + 1.0
    ensures r < 0.0 ==> n as real - 1.0 < r <= n as real
  {
    if r >= 0.0 then r.Floor else -((-r).Floor)
  }

  /** Truncation is symmetric about zero and keeps whole numbers; unlike
      the floor it maps -2.5 to -2. */
  lemma TruncateTowardZero(r: real, n: int)
    ensures Truncate(-r) == -Truncate(r)
    ensures Truncate(n as real) == n
    ensures Truncate(-2.5) == -2 && (-2.5).Floor == -3
  {
  }

  /** The pixel a projected position lands on when passed to an `int`
      parameter. */
  function Pixel(p: Vec2): Point {
    Point(Truncate(p.x), Truncate(p.y))
  }

  /** Which winding the mesh renderer discards (or outlines dotted). */
  datatype CullType = CullNone | CullBackface | CullFrontface

  /** Vertex positions plus a flat list of vertex numbers, three per triangle. */
  datatype Mesh = Mesh(vertices: seq<Vec3>, indices: seq<int>)

  /** Raster size in pixels and field of view in degrees. */
  datatype Camera = Camera(width: int, height: int, fov: real)

  /** Placement of a mesh in the world. `R` is the rotation representation:
      Euler angles in one renderer, a quaternion in the other. */
  datatype Transform<R> = Transform(position: Vec3, rotation: R, scale: Vec3)

  /** An 8-bit colour channel (SDL's `Uint8`). */
  newtype Byte = n: int | 0 <= n < 256

  /** An RGBA draw colour (`SDL_Color`). */
  datatype Color = Color(r: Byte, g: Byte, b: Byte, a: Byte)
}
