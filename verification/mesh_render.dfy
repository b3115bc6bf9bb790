/** The mesh renderer (`SDL_RenderDrawMesh`) in both of its versions: the
    demo in SDL3D/main.cpp (Euler rotation, outlines only) and the library in
    SDL3D/sdl_3d.cpp (scale, quaternion rotation, halved fill colour). Each
    call is modelled as the sequence of drawing commands it issues. Rotation
    and projection are floating-point numerics kept as function parameters.
    Culling and fills use the projected positions themselves; the line
    routines take `int` coordinates, so their endpoints are truncated. */
module MeshRender {
  import opened Geometry

  /** One drawing call the renderer issues. */
  datatype Command =
    | Fill(v0: Vec2, v1: Vec2, v2: Vec2, color: Color)  // SDL_RenderGeometry
    | Line(from: Point, to: Point)                       // SDL_RenderDrawLine
    | Dotted(from: Point, to: Point)                     // SDL_RenderDrawDottedLine

  /** What happens to one triangle. */
  datatype Verdict = Skip | DrawDotted | DrawSolid

  // ---------------------------------------------------------------------
  // Winding and the culling rule
  // ---------------------------------------------------------------------

  /** The 2D cross product of the edges p1 - p0 and p2 - p0 (twice the
      signed area of the projected triangle). */
  function Winding(p0: Vec2, p1: Vec2, p2: Vec2): real {
    (p1.x - p0.x) * (p2.y - p0.y) - (p1.y - p0.y) * (p2.x - p0.x)
  }

  /** The triangle has the winding that `cull` singles out: positive for
      back-face culling, negative for front-face culling, never for none. */
  predicate Culled(cull: CullType, cross: real) {
    match cull
    case CullNone => false
    case CullBackface => cross > 0.0
    case CullFrontface => cross < 0.0
  }

  /** The decision chain of the renderer: a triangle of the culled winding is
      skipped, or outlined dotted when back edges are shown; any other
      triangle is drawn solid. */
  function Classify(cull: CullType, cross: real, backedges: bool): (v: Verdict)
    ensures v == Skip <==> Culled(cull, cross) && !backedges
    ensures v == DrawDotted <==> Culled(cull, cross) && backedges
    ensures v == DrawSolid <==> !Culled(cull, cross)
    ensures cull == CullNone || cross == 0.0 ==> v == DrawSolid
  {
    if cull == CullBackface && cross > 0.0 then
      (if !backedges then Skip else DrawDotted)
    else if cull == CullFrontface && cross < 0.0 then
      (if !backedges then Skip else DrawDotted)
    else
      DrawSolid
  }

  /** Exchanging two corners reverses the winding. */
  lemma SwapNegatesWinding(p0: Vec2, p1: Vec2, p2: Vec2)
    ensures Winding(p0, p2, p1) == -Winding(p0, p1, p2)
    ensures Winding(p1, p0, p2) == -Winding(p0, p1, p2)
  {
  }

  /** Back-face culling of one winding decides exactly as front-face culling
      of the reversed winding. */
  lemma CullModesMirror(cross: real, backedges: bool)
    ensures Classify(CullBackface, cross, backedges) == Classify(CullFrontface, -cross, backedges)
  {
  }

  /** Listing a triangle's corners in the other order flips a nonzero winding
      from culled to kept (and back) under back- or front-face culling. */
  lemma SwapFlipsCulling(cull: CullType, p0: Vec2, p1: Vec2, p2: Vec2)
    requires cull != CullNone && Winding(p0, p1, p2) != 0.0
    ensures Culled(cull, Winding(p0, p2, p1)) <==> !Culled(cull, Winding(p0, p1, p2))
  {
    SwapNegatesWinding(p0, p1, p2);
  }

  /** The triangle (0,0), (1,0), (0,1) has positive winding: back-face
      culling skips it, and skips its reversal (0,0), (0,1), (1,0) no more. */
  lemma WindingExample()
    ensures Winding(Vec2(0.0, 0.0), Vec2(1.0, 0.0), Vec2(0.0, 1.0)) == 1.0
    ensures Classify(CullBackface, Winding(Vec2(0.0, 0.0), Vec2(1.0, 0.0), Vec2(0.0, 1.0)), false) == Skip
    ensures Classify(CullBackface, Winding(Vec2(0.0, 0.0), Vec2(0.0, 1.0), Vec2(1.0, 0.0)), false) == DrawSolid
  {
  }

  // ---------------------------------------------------------------------
  // One triangle
  // ---------------------------------------------------------------------

  /** The edge command from `a` to `b`, of the given kind, between the
      pixels the two positions truncate to. */
  function Edge(dotted: bool, a: Vec2, b: Vec2): Command {
    if dotted then Dotted(Pixel(a), Pixel(b)) else Line(Pixel(a), Pixel(b))
  }

  /** The segment a line command draws (a fill draws none). */
  predicate Joins(c: Command, a: Point, b: Point) {
    (c.Line? || c.Dotted?) && c.from == a && c.to == b
  }

  /** The three outline edges p0-p1, p1-p2, p2-p0, all dotted or all solid. */
  function Outline(dotted: bool, p0: Vec2, p1: Vec2, p2: Vec2): (r: seq<Command>)
    ensures |r| == 3
    ensures Joins(r[0], Pixel(p0), Pixel(p1)) && Joins(r[1], Pixel(p1), Pixel(p2)) && Joins(r[2], Pixel(p2), Pixel(p0))
    ensures forall k :: 0 <= k < 3 ==> (r[k].Dotted? <==> dotted) && !r[k].Fill?
  {
    [Edge(dotted, p0, p1), Edge(dotted, p1, p2), Edge(dotted, p2, p0)]
  }

  /** Half of an 8-bit channel, rounded down (C's `/= 2` on a `Uint8`). */
  function Half(n: Byte): (h: Byte)
    ensures 2 * (h as int) <= n as int <= 2 * (h as int) + 1
    ensures h <= 127
  {
    n / 2
  }

  /** The fill colour: red, green and blue halved, alpha kept. */
  function HalfShade(c: Color): (h: Color)
    ensures 2 * (h.r as int) <= c.r as int <= 2 * (h.r as int) + 1 && h.r <= 127
    ensures 2 * (h.g as int) <= c.g as int <= 2 * (h.g as int) + 1 && h.g <= 127
    ensures 2 * (h.b as int) <= c.b as int <= 2 * (h.b as int) + 1 && h.b <= 127
    ensures h.a == c.a
  {
    Color(Half(c.r), Half(c.g), Half(c.b), c.a)
  }

  /** One triangle of the demo renderer: nothing when culled and back edges
      are hidden, otherwise its outline, dotted exactly when culled. */
  function TriangleDemo(cull: CullType, backedges: bool, p0: Vec2, p1: Vec2, p2: Vec2): (r: seq<Command>)
    ensures r == [] <==> Culled(cull, Winding(p0, p1, p2)) && !backedges
    ensures r != [] ==> r == Outline(Culled(cull, Winding(p0, p1, p2)), p0, p1, p2)
  {
    match Classify(cull, Winding(p0, p1, p2), backedges)
    case Skip => []
    case DrawDotted => Outline(true, p0, p1, p2)
    case DrawSolid => Outline(false, p0, p1, p2)
  }

  /** One triangle of the library renderer: nothing when culled and back
      edges are hidden; otherwise a fill in the halved colour exactly when
      back edges are hidden, followed by the outline, dotted exactly when
      culled. */
  function TriangleLib(cull: CullType, backedges: bool, color: Color, p0: Vec2, p1: Vec2, p2: Vec2): (r: seq<Command>)
    ensures r == [] <==> Culled(cull, Winding(p0, p1, p2)) && !backedges
    ensures r != [] && !backedges ==>
              r == [Fill(p0, p1, p2, HalfShade(color))] + Outline(false, p0, p1, p2)
    ensures r != [] && backedges ==> r == Outline(Culled(cull, Winding(p0, p1, p2)), p0, p1, p2)
  {
    var verdict := Classify(cull, Winding(p0, p1, p2), backedges);
    if verdict == Skip then []
    else
      var fill := if !backedges then [Fill(p0, p1, p2, HalfShade(color))] else [];
      fill + Outline(verdict == DrawDotted, p0, p1, p2)
  }

  // ---------------------------------------------------------------------
  // A whole mesh over precomputed screen positions
  // ---------------------------------------------------------------------

  /** Every index names a vertex and the indices come in whole triples. */
  predicate WellFormed(m: Mesh) {
    |m.indices| % 3 == 0 &&
    forall i :: 0 <= i < |m.indices| ==> 0 <= m.indices[i] < |m.vertices|
  }

  /** `screen` gives one projected position per vertex of `m`. */
  predicate Covers(m: Mesh, screen: seq<Vec2>) {
    WellFormed(m) && |screen| == |m.vertices|
  }

  /** No command is a fill. */
  predicate NoFill(cs: seq<Command>) {
    forall k :: 0 <= k < |cs| ==> !cs[k].Fill?
  }

  /** The commands other than fills, in order. */
  function Outlines(cs: seq<Command>): (r: seq<Command>)
    ensures |r| <= |cs|
    ensures NoFill(r)
  {
    if cs == [] then []
    else (if cs[0].Fill? then [] else [cs[0]]) + Outlines(cs[1..])
  }

  /** Draws one triangle from its three projected corners. */
  type Drawer = (Vec2, Vec2, Vec2) -> seq<Command>

  /** The demo's treatment of one triangle. */
  function DemoDraw(cull: CullType, backedges: bool): Drawer {
    (p0: Vec2, p1: Vec2, p2: Vec2) => TriangleDemo(cull, backedges, p0, p1, p2)
  }

  /** The library's treatment of one triangle. */
  function LibDraw(cull: CullType, backedges: bool, color: Color): Drawer {
    (p0: Vec2, p1: Vec2, p2: Vec2) => TriangleLib(cull, backedges, color, p0, p1, p2)
  }

  /** The renderer's loop over the index list from triangle `t` on (the
      loop index is `3 * t`): each triple of indices names three vertices
      whose screen positions, taken from `screen`, are handed to `draw`. */
  function RenderFrom(m: Mesh, screen: seq<Vec2>, draw: Drawer, t: nat): seq<Command>
    requires Covers(m, screen) && 3 * t <= |m.indices|
    decreases |m.indices| - 3 * t
  {
    if 3 * t == |m.indices| then []
    else
      draw(screen[m.indices[3 * t]], screen[m.indices[3 * t + 1]], screen[m.indices[3 * t + 2]])
      + RenderFrom(m, screen, draw, t + 1)
  }

  /** One pass of the loop: triangle `t`, then the rest. */
  lemma RenderStep(m: Mesh, screen: seq<Vec2>, draw: Drawer, t: nat)
    requires Covers(m, screen) && 3 * t < |m.indices|
    ensures 3 * t + 2 < |m.indices|
    ensures 0 <= m.indices[3 * t] < |screen| && 0 <= m.indices[3 * t + 1] < |screen| && 0 <= m.indices[3 * t + 2] < |screen|
    ensures RenderFrom(m, screen, draw, t)
         == draw(screen[m.indices[3 * t]], screen[m.indices[3 * t + 1]], screen[m.indices[3 * t + 2]])
          + RenderFrom(m, screen, draw, t + 1)
  {
  }

  /** What `draw` emits for triangle `u` alone: its three corners, read
      through the index triple `3u`, `3u+1`, `3u+2`. */
  function Part(m: Mesh, screen: seq<Vec2>, draw: Drawer, u: nat): seq<Command>
    requires Covers(m, screen) && 3 * u + 2 < |m.indices|
  {
    draw(screen[m.indices[3 * u]], screen[m.indices[3 * u + 1]], screen[m.indices[3 * u + 2]])
  }

  /** The command lists in `parts`, one after the other. */
  function Flatten(parts: seq<seq<Command>>): seq<Command> {
    if parts == [] then [] else parts[0] + Flatten(parts[1..])
  }

  /** The loop in closed form: for a mesh of `n` triangles, the loop from
      triangle `t` emits the commands of triangle `t`, then of `t + 1`, and
      so on up to triangle `n - 1`, each drawn on its own. */
  lemma {:induction false} RenderConcat(m: Mesh, screen: seq<Vec2>, draw: Drawer, n: nat, t: nat)
    requires Covers(m, screen) && 3 * n == |m.indices| && t <= n
    ensures RenderFrom(m, screen, draw, t)
         == Flatten(seq(n - t, k requires 0 <= k < n - t => Part(m, screen, draw, t + k)))
    decreases n - t
  {
    var ps := seq(n - t, k requires 0 <= k < n - t => Part(m, screen, draw, t + k));
    if t < n {
      RenderStep(m, screen, draw, t);
      RenderConcat(m, screen, draw, n, t + 1);
      assert ps[0] == Part(m, screen, draw, t);
      assert ps[1..] == seq(n - (t + 1), k requires 0 <= k < n - (t + 1) => Part(m, screen, draw, t + 1 + k));
    }
  }

  /** Every command satisfies `ok`. */
  predicate Every(cs: seq<Command>, ok: Command -> bool) {
    forall k :: 0 <= k < |cs| ==> ok(cs[k])
  }

  lemma EveryAppend(a: seq<Command>, b: seq<Command>, ok: Command -> bool)
    requires Every(a, ok) && Every(b, ok)
    ensures Every(a + b, ok)
  {
    assert forall k :: 0 <= k < |a| ==> (a + b)[k] == a[k];
    assert forall k :: |a| <= k < |a| + |b| ==> (a + b)[k] == b[k - |a|];
  }

  /** A property of every command `draw` emits holds of every command the
      loop emits. */
  lemma {:induction false} RenderEvery(m: Mesh, screen: seq<Vec2>, draw: Drawer, ok: Command -> bool, t: nat)
    requires Covers(m, screen) && 3 * t <= |m.indices|
    requires forall p0, p1, p2 :: Every(draw(p0, p1, p2), ok)
    ensures Every(RenderFrom(m, screen, draw, t), ok)
    decreases |m.indices| - 3 * t
  {
    if 3 * t < |m.indices| {
      RenderStep(m, screen, draw, t);
      RenderEvery(m, screen, draw, ok, t + 1);
      EveryAppend(draw(screen[m.indices[3 * t]], screen[m.indices[3 * t + 1]], screen[m.indices[3 * t + 2]]),
                  RenderFrom(m, screen, draw, t + 1), ok);
    }
  }

  /** When `draw` emits between `lo` and `hi` commands per triangle, the loop
      emits between `lo` and `hi` commands per index triple. */
  lemma {:induction false} RenderBounds(m: Mesh, screen: seq<Vec2>, draw: Drawer, lo: nat, hi: nat, t: nat)
    requires Covers(m, screen) && 3 * t <= |m.indices|
    requires forall p0, p1, p2 :: lo <= |draw(p0, p1, p2)| <= hi
    ensures lo * (|m.indices| - 3 * t) <= 3 * |RenderFrom(m, screen, draw, t)| <= hi * (|m.indices| - 3 * t)
    decreases |m.indices| - 3 * t
  {
    if 3 * t < |m.indices| {
      RenderStep(m, screen, draw, t);
      RenderBounds(m, screen, draw, lo, hi, t + 1);
      var n := |m.indices| - 3 * (t + 1);
      assert lo * (n + 3) == 3 * lo + lo * n;
      assert hi * (n + 3) == 3 * hi + hi * n;
    }
  }

  /** When dropping fills from what `big` draws leaves what `small` draws,
      dropping fills from the loop over `big` leaves the loop over `small`. */
  lemma {:induction false} RenderOutlines(m: Mesh, screen: seq<Vec2>, big: Drawer, small: Drawer, t: nat)
    requires Covers(m, screen) && 3 * t <= |m.indices|
    requires forall p0, p1, p2 :: Outlines(big(p0, p1, p2)) == small(p0, p1, p2)
    ensures Outlines(RenderFrom(m, screen, big, t)) == RenderFrom(m, screen, small, t)
    decreases |m.indices| - 3 * t
  {
    if 3 * t < |m.indices| {
      RenderStep(m, screen, big, t);
      RenderStep(m, screen, small, t);
      RenderOutlines(m, screen, big, small, t + 1);
      OutlinesAppend(big(screen[m.indices[3 * t]], screen[m.indices[3 * t + 1]], screen[m.indices[3 * t + 2]]),
                     RenderFrom(m, screen, big, t + 1));
    }
  }

  /** The demo never fills, draws solid lines only when back edges are
      hidden, and emits at most three lines per triangle: exactly three
      without culling. */
  lemma DemoShape(m: Mesh, screen: seq<Vec2>, cull: CullType, backedges: bool)
    requires Covers(m, screen)
    ensures var r := RenderFrom(m, screen, DemoDraw(cull, backedges), 0);
      && NoFill(r)
      && (!backedges ==> forall k :: 0 <= k < |r| ==> r[k].Line?)
      && |r| <= |m.indices|
      && (cull == CullNone ==> |r| == |m.indices|)
  {
    var draw := DemoDraw(cull, backedges);
    var r := RenderFrom(m, screen, draw, 0);
    RenderEvery(m, screen, draw, (c: Command) => !c.Fill?, 0);
    if !backedges {
      RenderEvery(m, screen, draw, (c: Command) => c.Line?, 0);
    }
    if cull == CullNone {
      RenderBounds(m, screen, draw, 3, 3, 0);
    } else {
      RenderBounds(m, screen, draw, 0, 3, 0);
    }
  }

  /** The library fills only when back edges are hidden, and then in the
      halved colour; it draws dotted lines only when back edges are shown;
      it emits at most four commands per triangle: without culling exactly
      three (back edges shown) or four (hidden). */
  lemma LibShape(m: Mesh, screen: seq<Vec2>, cull: CullType, backedges: bool, color: Color)
    requires Covers(m, screen)
    ensures var r := RenderFrom(m, screen, LibDraw(cull, backedges, color), 0);
      && (backedges ==> NoFill(r))
      && (!backedges ==> forall k :: 0 <= k < |r| ==> !r[k].Dotted?)
      && (forall k :: 0 <= k < |r| && r[k].Fill? ==> r[k].color == HalfShade(color))
      && 3 * |r| <= 4 * |m.indices|
      && (cull == CullNone ==> 3 * |r| == (if backedges then 3 else 4) * |m.indices|)
  {
    var draw := LibDraw(cull, backedges, color);
    if backedges {
      RenderEvery(m, screen, draw, (c: Command) => !c.Fill?, 0);
    } else {
      RenderEvery(m, screen, draw, (c: Command) => !c.Dotted?, 0);
    }
    RenderEvery(m, screen, draw, (c: Command) => c.Fill? ==> c.color == HalfShade(color), 0);
    if cull == CullNone {
      var n := if backedges then 3 else 4;
      RenderBounds(m, screen, draw, n, n, 0);
    } else {
      RenderBounds(m, screen, draw, 0, 4, 0);
    }
  }

  /** Removing the fills from the library's output leaves the demo's output. */
  lemma LibOutlinesAreDemo(m: Mesh, screen: seq<Vec2>, cull: CullType, backedges: bool, color: Color)
    requires Covers(m, screen)
    ensures Outlines(RenderFrom(m, screen, LibDraw(cull, backedges, color), 0)) == RenderFrom(m, screen, DemoDraw(cull, backedges), 0)
  {
    forall p0, p1, p2
      ensures Outlines(LibDraw(cull, backedges, color)(p0, p1, p2)) == DemoDraw(cull, backedges)(p0, p1, p2)
    {
      TriangleOutlines(cull, backedges, color, p0, p1, p2);
    }
    RenderOutlines(m, screen, LibDraw(cull, backedges, color), DemoDraw(cull, backedges), 0);
  }

  lemma {:induction false} OutlinesAppend(a: seq<Command>, b: seq<Command>)
    ensures Outlines(a + b) == Outlines(a) + Outlines(b)
    decreases |a|
  {
    if a == [] {
      ConcatEmpty(b);
    } else {
      OutlinesAppend(a[1..], b);
      OutlinesCons(a, b);
      ConcatAssoc(if a[0].Fill? then [] else [a[0]], Outlines(a[1..]), Outlines(b));
    }
  }

  lemma OutlinesCons(a: seq<Command>, b: seq<Command>)
    requires a != []
    ensures Outlines(a + b) == (if a[0].Fill? then [] else [a[0]]) + Outlines(a[1..] + b)
  {
    assert (a + b)[0] == a[0] && (a + b)[1..] == a[1..] + b;
  }

  /** Dropping the fills keeps every other command. */
  lemma {:induction false} OutlinesKeep(cs: seq<Command>, c: Command)
    ensures c in Outlines(cs) <==> c in cs && !c.Fill?
    decreases |cs|
  {
    if cs != [] {
      OutlinesKeep(cs[1..], c);
      assert cs == [cs[0]] + cs[1..];
    }
  }

  /** Without fills there is nothing to drop. */
  lemma {:induction false} OutlinesOfNoFill(cs: seq<Command>)
    requires NoFill(cs)
    ensures Outlines(cs) == cs
    decreases |cs|
  {
    if cs != [] {
      OutlinesOfNoFill(cs[1..]);
      assert cs == [cs[0]] + cs[1..];
    }
  }

  lemma TriangleOutlines(cull: CullType, backedges: bool, color: Color, p0: Vec2, p1: Vec2, p2: Vec2)
    ensures Outlines(TriangleLib(cull, backedges, color, p0, p1, p2)) == TriangleDemo(cull, backedges, p0, p1, p2)
  {
    var t := TriangleLib(cull, backedges, color, p0, p1, p2);
    if t != [] {
      var o := Outline(Culled(cull, Winding(p0, p1, p2)), p0, p1, p2);
      OutlinesOfNoFill(o);
      if !backedges {
        assert t[1..] == o;
      }
    }
  }

  lemma ConcatEmpty(x: seq<Command>)
    ensures [] + x == x
  {
  }

  lemma ConcatAssoc(x: seq<Command>, y: seq<Command>, z: seq<Command>)
    ensures x + (y + z) == (x + y) + z
  {
  }

  // ---------------------------------------------------------------------
  // Triangles are drawn in index order, three indices at a time
  // ---------------------------------------------------------------------

  /** Rendering the triangles of `a` followed by those of `b` draws the
      triangles of `a` and then those of `b`, whatever each triangle draws. */
  lemma RenderAppend(v: seq<Vec3>, a: seq<int>, b: seq<int>, screen: seq<Vec2>, draw: Drawer)
    requires Covers(Mesh(v, a), screen) && Covers(Mesh(v, b), screen)
    ensures Covers(Mesh(v, a + b), screen)
    ensures RenderFrom(Mesh(v, a + b), screen, draw, 0)
         == RenderFrom(Mesh(v, a), screen, draw, 0) + RenderFrom(Mesh(v, b), screen, draw, 0)
  {
    AppendCovers(v, a, b, screen);
    AppendPrefix(Mesh(v, a + b), Mesh(v, a), Mesh(v, b), screen, draw, |a| / 3, 0);
  }

  lemma AppendCovers(v: seq<Vec3>, a: seq<int>, b: seq<int>, screen: seq<Vec2>)
    requires Covers(Mesh(v, a), screen) && Covers(Mesh(v, b), screen)
    ensures Covers(Mesh(v, a + b), screen)
  {
    var ab := a + b;
    forall i | 0 <= i < |ab|
      ensures 0 <= ab[i] < |v|
    {
      if i >= |a| {
        assert ab[i] == b[i - |a|];
      }
    }
  }

  /** The indices of `ab` are those of `a`, `ta` triangles' worth, followed
      by those of `b`. */
  predicate Joined(ab: Mesh, a: Mesh, b: Mesh, screen: seq<Vec2>, ta: nat) {
    Covers(a, screen) && Covers(b, screen) && Covers(ab, screen) &&
    ab.indices == a.indices + b.indices && 3 * ta == |a.indices|
  }

  lemma {:induction false} AppendPrefix(ab: Mesh, a: Mesh, b: Mesh, screen: seq<Vec2>, draw: Drawer, ta: nat, t: nat)
    requires Joined(ab, a, b, screen, ta) && t <= ta
    ensures RenderFrom(ab, screen, draw, t) == RenderFrom(a, screen, draw, t) + RenderFrom(b, screen, draw, 0)
    decreases ta - t
  {
    if t == ta {
      AppendSuffix(ab, a, b, screen, draw, ta, 0);
      ConcatEmpty(RenderFrom(b, screen, draw, 0));
    } else {
      AppendPrefix(ab, a, b, screen, draw, ta, t + 1);
      PrefixStep(ab, a, b, screen, draw, ta, t);
    }
  }

  lemma PrefixStep(ab: Mesh, a: Mesh, b: Mesh, screen: seq<Vec2>, draw: Drawer, ta: nat, t: nat)
    requires Joined(ab, a, b, screen, ta) && t < ta
    requires RenderFrom(ab, screen, draw, t + 1) == RenderFrom(a, screen, draw, t + 1) + RenderFrom(b, screen, draw, 0)
    ensures RenderFrom(ab, screen, draw, t) == RenderFrom(a, screen, draw, t) + RenderFrom(b, screen, draw, 0)
  {
    RenderStep(ab, screen, draw, t);
    RenderStep(a, screen, draw, t);
    PrefixCorners(a.indices, b.indices, 3 * t);
    ConcatAssoc(draw(screen[a.indices[3 * t]], screen[a.indices[3 * t + 1]], screen[a.indices[3 * t + 2]]),
                RenderFrom(a, screen, draw, t + 1), RenderFrom(b, screen, draw, 0));
  }

  lemma {:induction false} AppendSuffix(ab: Mesh, a: Mesh, b: Mesh, screen: seq<Vec2>, draw: Drawer, ta: nat, u: nat)
    requires Joined(ab, a, b, screen, ta) && 3 * u <= |b.indices|
    ensures RenderFrom(ab, screen, draw, ta + u) == RenderFrom(b, screen, draw, u)
    decreases |b.indices| - 3 * u
  {
    if 3 * u < |b.indices| {
      AppendSuffix(ab, a, b, screen, draw, ta, u + 1);
      RenderStep(ab, screen, draw, ta + u);
      RenderStep(b, screen, draw, u);
      SuffixCorners(a.indices, b.indices, 3 * u);
    }
  }

  lemma PrefixCorners(a: seq<int>, b: seq<int>, i: nat)
    requires i + 2 < |a|
    ensures (a + b)[i] == a[i] && (a + b)[i + 1] == a[i + 1] && (a + b)[i + 2] == a[i + 2]
  {
  }

  lemma SuffixCorners(a: seq<int>, b: seq<int>, j: nat)
    requires j + 2 < |b|
    ensures (a + b)[|a| + j] == b[j] && (a + b)[|a| + j + 1] == b[j + 1] && (a + b)[|a| + j + 2] == b[j + 2]
  {
  }

  /** A mesh of one triangle draws exactly that triangle, corners taken in
      index order. */
  lemma SingleTriangle(v: seq<Vec3>, i0: int, i1: int, i2: int, screen: seq<Vec2>, draw: Drawer)
    requires Covers(Mesh(v, [i0, i1, i2]), screen)
    ensures 0 <= i0 < |screen| && 0 <= i1 < |screen| && 0 <= i2 < |screen|
    ensures RenderFrom(Mesh(v, [i0, i1, i2]), screen, draw, 0) == draw(screen[i0], screen[i1], screen[i2])
  {
    var m := Mesh(v, [i0, i1, i2]);
    assert m.indices[0] == i0 && m.indices[1] == i1 && m.indices[2] == i2;
    assert RenderFrom(m, screen, draw, 1) == [];
  }

  // ---------------------------------------------------------------------
  // The full pipeline: transform, project, then cull and draw
  // ---------------------------------------------------------------------

  /** A vertex in world space: scaled componentwise, then rotated, then
      moved to the transform's position. */
  function WorldVertex<R>(t: Transform<R>, rotate: (Vec3, R) -> Vec3, v: Vec3): Vec3 {
    rotate(v.Times(t.scale), t.rotation).Plus(t.position)
  }

  /** Scaling happens before rotation: placing `v` under `t` is placing the
      scaled vertex under the same position and rotation at unit scale. With
      unit scale, a vertex is rotated and then moved, as in the demo. */
  lemma ScaleThenRotate<R>(t: Transform<R>, rotate: (Vec3, R) -> Vec3, v: Vec3)
    ensures WorldVertex(t, rotate, v) == WorldVertex(Transform(t.position, t.rotation, UnitScale), rotate, v.Times(t.scale))
    ensures WorldVertex(Transform(t.position, t.rotation, UnitScale), rotate, v) == rotate(v, t.rotation).Plus(t.position)
  {
    UnitScaleKeeps(v);
    UnitScaleKeeps(v.Times(t.scale));
  }

  /** Scaling by one is no scaling. */
  lemma UnitScaleKeeps(v: Vec3)
    ensures v.Times(UnitScale) == v
  {
  }

  /** The projected position of every vertex of `m`. */
  function Projected<R>(cam: Camera, m: Mesh, t: Transform<R>, rotate: (Vec3, R) -> Vec3, project: (Vec3, Camera) -> Vec2): (s: seq<Vec2>)
    ensures |s| == |m.vertices|
    ensures forall v :: 0 <= v < |m.vertices| ==> s[v] == project(WorldVertex(t, rotate, m.vertices[v]), cam)
  {
    seq(|m.vertices|, v requires 0 <= v < |m.vertices| => project(WorldVertex(t, rotate, m.vertices[v]), cam))
  }

  /** The library's `SDL_RenderDrawMesh` from triangle `k` on, computing each
      corner's world and screen position as it goes. Its output is the
      culling pass over the vertices' screen positions. */
  function DrawMeshLibFrom<R>(cam: Camera, m: Mesh, t: Transform<R>, rotate: (Vec3, R) -> Vec3, project: (Vec3, Camera) -> Vec2,
                               cull: CullType, backedges: bool, color: Color, k: nat): (r: seq<Command>)
    requires WellFormed(m) && 3 * k <= |m.indices|
    ensures r == RenderFrom(m, Projected(cam, m, t, rotate, project), LibDraw(cull, backedges, color), k)
    decreases |m.indices| - 3 * k
  {
    if 3 * k == |m.indices| then []
    else
      var i := 3 * k;
      var p0 := project(WorldVertex(t, rotate, m.vertices[m.indices[i]]), cam);
      var p1 := project(WorldVertex(t, rotate, m.vertices[m.indices[i + 1]]), cam);
      var p2 := project(WorldVertex(t, rotate, m.vertices[m.indices[i + 2]]), cam);
      LibDraw(cull, backedges, color)(p0, p1, p2)
      + DrawMeshLibFrom(cam, m, t, rotate, project, cull, backedges, color, k + 1)
  }

  /** The demo program's raster: 1280 by 720 pixels at a 47 degree field of view. */
  const DemoCamera: Camera := Camera(1280, 720, 47.0)

  /** The demo's `SDL_RenderDrawMesh` from triangle `k` on: rotate by Euler
      angles, move to `pos`, project on the demo raster, cull and outline. */
  function DrawMeshDemoFrom(m: Mesh, pos: Vec3, rot: Vec3, rotate: (Vec3, Vec3) -> Vec3, project: (Vec3, Camera) -> Vec2,
                            cull: CullType, backedges: bool, k: nat): (r: seq<Command>)
    requires WellFormed(m) && 3 * k <= |m.indices|
    ensures r == RenderFrom(m, Projected(DemoCamera, m, Transform(pos, rot, UnitScale), rotate, project), DemoDraw(cull, backedges), k)
    decreases |m.indices| - 3 * k
  {
    if 3 * k == |m.indices| then []
    else
      var i := 3 * k;
      var p0 := project(rotate(m.vertices[m.indices[i]], rot).Plus(pos), DemoCamera);
      var p1 := project(rotate(m.vertices[m.indices[i + 1]], rot).Plus(pos), DemoCamera);
      var p2 := project(rotate(m.vertices[m.indices[i + 2]], rot).Plus(pos), DemoCamera);
      UnitScaleKeeps(m.vertices[m.indices[i]]);
      UnitScaleKeeps(m.vertices[m.indices[i + 1]]);
      UnitScaleKeeps(m.vertices[m.indices[i + 2]]);
      DemoDraw(cull, backedges)(p0, p1, p2)
      + DrawMeshDemoFrom(m, pos, rot, rotate, project, cull, backedges, k + 1)
  }

  /** The demo renderer is the library renderer at unit scale on the demo
      raster with its fills left out. */
  lemma DemoIsUnscaledLib(m: Mesh, pos: Vec3, rot: Vec3, rotate: (Vec3, Vec3) -> Vec3, project: (Vec3, Camera) -> Vec2,
                          cull: CullType, backedges: bool, color: Color)
    requires WellFormed(m)
    ensures DrawMeshDemoFrom(m, pos, rot, rotate, project, cull, backedges, 0)
         == Outlines(DrawMeshLibFrom(DemoCamera, m, Transform(pos, rot, UnitScale), rotate, project, cull, backedges, color, 0))
  {
    LibOutlinesAreDemo(m, Projected(DemoCamera, m, Transform(pos, rot, UnitScale), rotate, project), cull, backedges, color);
  }
}
