/** The cube mesh the demo program draws (SDL3D/main.cpp): eight corners of
    the box [-1,1]^3 and twelve triangles, two per face. */
module CubeData {
  import opened Geometry
  import opened MeshRender

  /** The cube's corners and its triangles as listed in the demo. */
  function Cube(): (m: Mesh)
    ensures |m.vertices| == 8 && |m.indices| == 36
    ensures WellFormed(m)
    ensures forall v :: 0 <= v < 8 ==> IsCorner(m.vertices[v])
    ensures forall v, w :: 0 <= v < w < 8 ==> m.vertices[v] != m.vertices[w]
  {
    Mesh(
      [Vec3(-1.0, -1.0, -1.0), Vec3(-1.0, -1.0, 1.0), Vec3(1.0, -1.0, -1.0), Vec3(1.0, -1.0, 1.0),
       Vec3(-1.0, 1.0, -1.0), Vec3(-1.0, 1.0, 1.0), Vec3(1.0, 1.0, -1.0), Vec3(1.0, 1.0, 1.0)],
      [6, 2, 3,  6, 3, 7,  7, 3, 1,  7, 1, 5,  5, 1, 0,  5, 0, 4,
       4, 0, 2,  4, 2, 6,  4, 6, 5,  5, 6, 7,  2, 0, 3,  3, 0, 1])
  }

  /** Every coordinate is -1 or 1: a corner of the box [-1,1]^3. */
  predicate IsCorner(v: Vec3) {
    (v.x == 1.0 || v.x == -1.0) && (v.y == 1.0 || v.y == -1.0) && (v.z == 1.0 || v.z == -1.0)
  }

  /** With no culling, every one of the cube's twelve triangles is drawn: 36
      outline edges from the demo, and 12 fills plus 36 edges from the
      library when back edges are hidden. */
  lemma CubeWithoutCulling(screen: seq<Vec2>, backedges: bool, color: Color)
    requires |screen| == 8
    ensures |RenderFrom(Cube(), screen, DemoDraw(CullNone, backedges), 0)| == 36
    ensures |RenderFrom(Cube(), screen, LibDraw(CullNone, backedges, color), 0)| == if backedges then 36 else 48
  {
    DemoShape(Cube(), screen, CullNone, backedges);
    LibShape(Cube(), screen, CullNone, backedges, color);
  }
}
