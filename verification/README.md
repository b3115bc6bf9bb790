# SDL3D wireframe renderer, modelled in Dafny

SDL3D draws a rotating cube as a wireframe with SDL2. The model covers the core of the renderer:

- **`SDL_RenderDrawDottedLine`**: an all-octant integer Bresenham walk from (x0,y0) to (x1,y1). A counter with period 20 lets the first 10 positions of every 20 through to `SDL_RenderDrawPoint`.
- **`SDL_RenderDrawMesh`**, in both of its versions:
  - the demo version in `SDL3D/main.cpp` rotates each vertex by Euler angles, translates it, projects it, culls the triangle and outlines it;
  - the library version in `SDL3D/sdl_3d.cpp` scales each vertex first and rotates it by a quaternion. It also fills every drawn triangle in the current draw colour with red, green and blue halved, whenever back edges are hidden.
- **The cube mesh** that the demo draws.

The two definitions of `SDL_RenderDrawDottedLine` are identical, so a single Dafny definition models both.

Files:

- `geometry.dfy` (module `Geometry`) holds the value types of `SDL3D/SDL_3D.h`:
  - vectors, the cull mode, the mesh, the camera and the transform;
  - the 8-bit colour;
  - C's float-to-`int` truncation.
- `dotted_line.dfy` (module `DottedLine`) holds the dotted line. It has two parts:
  - a pure recursive walk, with its loop invariant and the lemmas about it;
  - the method `DrawDottedLine`, which runs the source's `while (true)` loop statement for statement and is proved equal to the walk.
- `mesh_render.dfy` (module `MeshRender`) holds the mesh renderer.
  - Each call is modelled as the sequence of drawing commands it issues: `Fill` for `SDL_RenderGeometry`, `Line` for `SDL_RenderDrawLine`, `Dotted` for `SDL_RenderDrawDottedLine`.
  - `RenderFrom` is the loop over index triples that both versions share. The versions differ only in the per-triangle step, `TriangleDemo` or `TriangleLib`.
  - `DrawMeshLibFrom` and `DrawMeshDemoFrom` add the vertex transform and the projection. Each is proved equal to the loop over the projected vertices.
- `cube.dfy` (module `CubeData`) holds the cube data.

Rotation and projection are floating-point code that calls glm and `tan`, so both are function parameters:

- `rotate: (Vec3, R) -> Vec3`, where `R` is Euler angles or a quaternion;
- `project: (Vec3, Camera) -> Vec2`.

Floats are modelled as reals. The projected positions stay real, untruncated as in the source, for the cross product and for the fill. The line routines take `int` parameters, so each line endpoint is the truncated position (`Geometry.Truncate` and `Geometry.Pixel`).

The library's fill rule follows the code. A triangle is filled exactly when `backedges` is false (`SDL3D/sdl_3d.cpp:81`), not whenever its outline is solid. With back edges shown, a kept triangle gets a solid outline and no fill.

## Model

| member | source | states |
|---|---|---|
| DottedLine.DrawDottedLine | SDL3D/sdl_3d.cpp:21-42 | The loop ends after visiting exactly max(\|x1-x0\|,\|y1-y0\|)+1 positions: the Bresenham walk from (x0,y0) to (x1,y1). It plots exactly the visited positions whose step count mod 20 is below 10. The first position is always plotted. |
| DottedLine.LoopStep | SDL3D/main.cpp:68-83 | One pass of the loop body extends the visited prefix by the current position. It plots that position iff the counter is below 10, and keeps the counter equal to the step count mod 20. The exit test fires exactly at the last step. |
| DottedLine.StepTowards | SDL3D/main.cpp:75-81 | From a state on track and short of the target, one pass of the error-term update keeps the loop invariant. It moves by 0 or one unit per axis, always along the major axis, and brings the target exactly one step closer. |
| DottedLine.Start | SDL3D/main.cpp:64-67 | The initial state `err = dx + dy` at (x0,y0) satisfies the error-term invariant `err = dx - \|dy\| + slack`. The slack is zero at the origin. |
| DottedLine.AdvanceProgress | SDL3D/main.cpp:75-81 | One iteration keeps the invariant. It moves x by 0 or sx and y by 0 or sy, always along the major axis, and never past the target on either axis. The remaining distance along the major axis drops by exactly one. |
| DottedLine.WalkShape | SDL3D/main.cpp:68-83 | From any state on track, the loop reaches the target after exactly as many iterations as the remaining major-axis distance. It reaches the target nowhere earlier. Every position stays in the segment's bounding box and within half a step of the ideal line. |
| DottedLine.VisitedShape | SDL3D/sdl_3d.cpp:26-41 | Every visited position hugs the line, only the last one is (x1,y1), and consecutive positions are single steps toward the target. |
| DottedLine.VisitedNearLine | SDL3D/sdl_3d.cpp:33-39 | At every visited position p, the cross product of `p - (x0,y0)` and `(x1,y1) - (x0,y0)` is at most half the major extent. That is, the walk stays within half a pixel of the ideal line. |
| DottedLine.DeviationIsSlack | SDL3D/main.cpp:64-66 | Inside the bounding box, the error-term slack equals the distance from the ideal line, up to sign. |
| DottedLine.SinglePointLine | SDL3D/main.cpp:72-74 | When the endpoints coincide, the line visits and plots exactly that one point. |
| DottedLine.DashedLength | SDL3D/sdl_3d.cpp:25-40 | Among n visited positions, 10(n/20) + min(n mod 20, 10) are plotted. |
| DottedLine.DashedSlotAt | SDL3D/sdl_3d.cpp:25-40 | The plotted points come in visiting order, and only from positions whose step count k has k mod 20 < 10. The j-th plotted point is position 20(j/10) + j mod 10. |
| DottedLine.DashedRanks | SDL3D/sdl_3d.cpp:25-40 | Every position whose step count k has k mod 20 < 10 is plotted, as point number 10(k/20) + k mod 20. |
| DottedLine.DashedFirst | SDL3D/sdl_3d.cpp:25-29 | The counter starts at 0, so the first position, (x0,y0), is always plotted. |
| DottedLine.HorizontalDashed | SDL3D/main.cpp:67-82 | On a left-to-right horizontal line, the pixel at x is plotted iff (x - x0) mod 20 < 10. Nothing off the segment is plotted. |
| DottedLine.DashExample | SDL3D/main.cpp:69-71 | A 20-pixel horizontal line such as (0,0)-(19,0) plots its first ten pixels and skips its last ten. |
| Geometry.Truncate | SDL3D/sdl_3d.cpp:92-99 | A float passed as an `int` line coordinate loses its fraction toward zero: n ≤ r < n+1 for r ≥ 0, and n-1 < r ≤ n for r < 0. |
| Geometry.TruncateTowardZero | SDL3D/main.cpp:118-125 | Truncation is odd-symmetric and keeps whole numbers. It differs from the floor on negative fractions, mapping -2.5 to -2. |
| MeshRender.Classify | SDL3D/sdl_3d.cpp:57-72 | The triangle is skipped iff its winding is the culled one and back edges are hidden. It is dotted iff the winding is culled and back edges are shown, and solid otherwise. Cull mode none, or a zero cross product, always gives solid. |
| MeshRender.CullModesMirror | SDL3D/main.cpp:103-114 | Back-face culling of a cross product decides exactly as front-face culling of its negation. |
| MeshRender.SwapFlipsCulling | SDL3D/main.cpp:99-114 | Swapping two corners negates the cross product. So for a nonzero cross product, a triangle culled under back or front culling becomes kept, and vice versa. |
| MeshRender.WindingExample | SDL3D/main.cpp:99-108 | (0,0),(1,0),(0,1) has cross product 1 and is skipped under back-face culling. Its reversal is drawn solid. |
| MeshRender.Outline | SDL3D/sdl_3d.cpp:91-100 | Exactly three edges, p0→p1, p1→p2 and p2→p0 in that order, between the truncated pixels. All are dotted or all are solid, and none is a fill. |
| MeshRender.HalfShade | SDL3D/sdl_3d.cpp:74-78 | Red, green and blue are halved by integer division (2h ≤ c ≤ 2h+1), so each is at most 127. Alpha is unchanged. |
| MeshRender.TriangleDemo | SDL3D/main.cpp:98-126 | A triangle contributes nothing iff it is culled with back edges hidden. Otherwise it contributes its outline, dotted iff culled. |
| MeshRender.TriangleLib | SDL3D/sdl_3d.cpp:56-100 | A triangle contributes nothing iff it is culled with back edges hidden. Otherwise it contributes a fill in the halved colour iff back edges are hidden, and then its outline. With back edges hidden the outline is solid, and with them shown it is dotted iff culled. |
| MeshRender.TriangleOutlines | SDL3D/sdl_3d.cpp:80-100 | Dropping the fill from a library triangle leaves exactly the demo triangle. |
| MeshRender.RenderConcat | SDL3D/main.cpp:87-91 | For a mesh of n triangles, the loop emits triangle 0's commands, then triangle 1's, and so on up to triangle n-1. Triangle u is drawn on its own from the corners named by indices 3u, 3u+1 and 3u+2. |
| MeshRender.SingleTriangle | SDL3D/main.cpp:87-91 | A mesh of one index triple draws exactly that triangle, with corners in index order. |
| MeshRender.RenderAppend | SDL3D/main.cpp:87-91 | Rendering the index list a ++ b draws the triangles of a and then those of b, whatever each triangle draws. |
| MeshRender.RenderBounds | SDL3D/sdl_3d.cpp:45 | If each triangle emits between lo and hi commands, the mesh emits between lo and hi per index triple. |
| MeshRender.DemoShape | SDL3D/main.cpp:86-128 | The demo never fills, and draws only solid lines when back edges are hidden. It emits at most 3 lines per triangle, and exactly 3 without culling. |
| MeshRender.LibShape | SDL3D/sdl_3d.cpp:44-102 | The library fills nothing when back edges are shown, and draws nothing dotted when they are hidden. Every fill has the halved colour. It emits at most 4 commands per triangle. Without culling it emits exactly 3 (back edges shown) or 4 (hidden). |
| MeshRender.LibOutlinesAreDemo | SDL3D/sdl_3d.cpp:80-100 | Removing the fills from the library's output over the same projected vertices gives the demo's output. |
| MeshRender.OutlinesKeep | SDL3D/sdl_3d.cpp:90-100 | Dropping fills keeps every edge command and nothing else. |
| MeshRender.ScaleThenRotate | SDL3D/sdl_3d.cpp:47-49 | A world vertex is scaled componentwise first, then rotated, then translated. At unit scale it is rotated and translated, as in the demo. |
| MeshRender.DrawMeshLibFrom | SDL3D/sdl_3d.cpp:44-102 | Transforming and projecting each corner inside the loop gives the same commands as projecting every vertex first and running the culling loop over those positions. |
| MeshRender.DrawMeshDemoFrom | SDL3D/main.cpp:86-128 | The demo's loop (Euler rotation, then translation, projected on the 1280×720, 47° raster) is the culling loop over the vertices projected at unit scale. |
| MeshRender.DemoIsUnscaledLib | SDL3D/main.cpp:86-128 | The demo renderer draws exactly what the library's loop draws, given the same rotation function, at unit scale on the demo raster, with the fills removed. The library as written rotates by a quaternion, so this compares the loops, not the two rotations. |
| CubeData.Cube | SDL3D/main.cpp:144-168 | The cube has 8 distinct vertices, each a corner of [-1,1]³, and 36 indices, all in [0,8), forming 12 triangles. |
| CubeData.CubeWithoutCulling | SDL3D/main.cpp:155-168 | Without culling, the demo draws 36 edges for the cube. The library draws 36 commands with back edges shown, and 48 (12 fills plus 36 edges) with them hidden. |

## Left out

- The application loop in `SDL3D/main.cpp:130-218` is not modelled: window and renderer creation, event polling, the `k` key toggle, the clock, and presenting the frame. It is I/O with no rendering logic.
- The Euler rotation matrix (`SDL3D/main.cpp:32-51`), the quaternion rotation (`SDL3D/sdl_3d.cpp:5-8`) and the perspective projection (`SDL3D/main.cpp:53-61`, `SDL3D/sdl_3d.cpp:10-19`) are not modelled. They are floating-point and trigonometric code and library calls, so they appear only as function parameters.
- Floating-point rounding is not modelled: floats are reals. The cull test therefore sees the exact cross product of the projected positions.
- Infinite and NaN projected positions are not modelled, because reals have neither. The projection divides by `scale_x + z` and `scale_y + z` without a guard (`SDL3D/main.cpp:58-59`, `SDL3D/sdl_3d.cpp:16-17`), so the source can produce them. A NaN cross product fails both sign tests, so the source then draws the triangle solid even under back- or front-face culling. Converting such a position to `int` for a line endpoint is undefined in C.
- Geometry.Truncate: the model does not cover a projected coordinate outside the `int` range. Converting such a value is undefined in C.
- DottedLine.DrawDottedLine: coordinates are unbounded integers. The model does not cover the 32-bit overflow of `x1 - x0` or `2 * err` for coordinates beyond about ±2^30.
- The SDL primitives `SDL_RenderDrawPoint`, `SDL_RenderDrawLine` and `SDL_RenderGeometry` are recorded as commands and not executed. A `Dotted` command stands for one call of the dotted-line routine, which `DrawDottedLine` models. The pixels that `SDL_RenderDrawLine` itself lights are not modelled.
- The colour read by `SDL_GetRenderDrawColor` is a parameter of the library renderer. The texture coordinates of the fill vertices, always (0,0), are not modelled.
- A mesh with an index outside `[0, |vertices|)`, or an index count that is not a multiple of 3, makes the source read out of bounds. The mesh functions require a well-formed mesh (`MeshRender.WellFormed`) instead of modelling that behaviour.
- The header's declaration of `SDL_RenderDrawMesh` at `SDL3D/SDL_3D.h:32` does not match its definition, and the header never declares `SDL_Transform`. The model follows the definition at `SDL3D/sdl_3d.cpp:44` and infers the transform from its use at lines 47-49.
- The numeric values of the cull enum (`SDL3D/SDL_3D.h:13-17`) are not modelled, because only equality tests use them.
- Which faces of the spinning cube are culled in a given frame is not modelled. It depends on the rotation and projection numerics.
- VkDraw, a separate GLFW/Vulkan start-up program, is not part of this model.
