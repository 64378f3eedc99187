# Computer-graphics exercises, modelled in Dafny

This project models the computational core of a set of computer-graphics
exercises:

- **The ray tracer's shapes** (`raytracing/src/shapes.py`):
  - the sphere (`Ball`), the planes (`Plane`, `PlaneUV`), the axis-aligned box (`Cube`), the capped cylinder (`Cylinder`) and the paraboloids (`Paraboloid`, `DoubleSidedParaboloid`);
  - shapes placed by a 4x4 matrix (`ObjectTransform`);
  - ray-marched implicit surfaces (`ImplicitSurface`, `HeartSurface`, `MitchelSurface`).
- **The mesh tools** (`tarefaobj.py`):
  - the Wavefront OBJ reader and the face lines of the writer;
  - one step of midpoint subdivision of a triangle mesh;
  - the projection of all vertices onto the unit sphere.
- **The 2-D region classifiers and the adaptive quadtree `explore`**, against a parabola (`modelagem/parabola.py`) and a circle (`tarefa_modelagem.py`).
- **The rasterizer helpers:**
  - the inside tests of the 2-D `Circle` and `ImplicitFunction` shapes (`src/shapes.py`);
  - the escape-time Mandelbrot test (`mandelbrot.py`);
  - the supersampling grid with its box, hat and Gaussian filter weights (`ssaa_raster.py`);
  - the inverse rotation used by the rotated rasterizer (`rotated_raster.py`).

Arithmetic is exact (`real`). Square root, exponential, cosine and sine are
function parameters. Where the algebra needs the square root, `IsSqrt` assumes
only that it returns a non-negative root. Code that works step by step is
modelled as methods with loops. These are:

- the cube's slab loop;
- the cylinder's candidate scan;
- the paraboloid's root scan;
- the implicit surface's march and bisection;
- the OBJ reader's loops;
- the sample grid;
- the Mandelbrot loop.

Each method is proved against a specification function, and the properties
are proved about those functions. The mesh subdivision keeps the source's
shared mutable state, the growing vertex list and the midpoint cache, in a
class `Mesh.Refiner`. The in-place vertex normalisation works on an `array`.

Modules, one per file:

- `Vectors`, `Hits` and `Quadratic`: the shared vector, ray and hit-record vocabulary and the quadratic formula;
- `BallShape`, `PlaneShape`, `CubeShape`, `CylinderShape`, `ParaboloidShape`, `Transforms` and `ImplicitSurfaces`: the ray-tracer shapes;
- `Mesh` and `ObjFormat`: the mesh tools;
- `Quadtree`, `ParabolaRegions`, `CircleRegions` and `Shapes2D`: the 2-D classifiers;
- `Mandelbrot`, `Supersampling` and `Rotation`: the rasterizer helpers;
- `RealArith`, `Points2D` and `Wrappers`: small helpers.

## Model

| member | source | states |
|---|---|---|
| Vectors.Normalize | tarefaobj.py:116-118 | the result is a non-negative multiple of the vector; it has unit length whenever the vector is not zero |
| Vectors.NormalizeUnit | raytracing/src/shapes.py:40 | normalizing a vector that already has unit length returns it unchanged |
| Quadratic.Roots | raytracing/src/shapes.py:17-32 | when `s*s` is the discriminant, the two quadratic-formula values `(-b -/+ s) / 2a` are roots, and every root is one of them |
| Quadratic.Ordered | raytracing/src/shapes.py:22-28 | for `a > 0` the minus-sign root is not larger than the plus-sign root, so trying it first tries the nearer one |
| Quadratic.NoRealRoot | raytracing/src/shapes.py:18-19 | a negative discriminant leaves no parameter that solves the quadratic |
| BallShape.Hit | raytracing/src/shapes.py:11-34 | a negative discriminant gives the miss at +infinity; a hit has `t` above the epsilon floor, the ray's point at `t` and the normalized outward normal |
| BallShape.NonZeroDirection | raytracing/src/shapes.py:14 | a non-zero direction makes `a` positive, so the divisions by `2a` are defined |
| BallShape.OnSphereIsRoot | raytracing/src/shapes.py:13-17 | the ray's point at `t` is on the sphere exactly when `t` solves the quadratic |
| BallShape.HitIsNearestSurfacePoint | raytracing/src/shapes.py:18-34 | a hit lies on the sphere; any parameter beyond the floor whose point is on the sphere yields a hit, and the hit's `t` is not larger than that parameter |
| BallShape.HeadOnHit | raytracing/src/shapes.py:22-26 | a unit ray fired at the centre from distance `d` outside the sphere hits at `t = d - radius`, at the sphere's near pole |
| PlaneShape.Hit | raytracing/src/shapes.py:42-49 | a ray within the parallel tolerance misses; a hit has `t` at or above the floor, the stored normal and a point on the plane; every other result is the miss |
| PlaneShape.HitUV | raytracing/src/shapes.py:60-72 | as `Plane.hit`, and a hit carries `(u, v, 0)`: the offset from the anchor projected on the right and forward directions |
| PlaneShape.CrossingOnPlane | raytracing/src/shapes.py:45-47 | the point at the computed parameter lies on the plane |
| PlaneShape.PlaneOffset | raytracing/src/shapes.py:43-45 | the offset of the point at `t` along the normal changes linearly in `t`, at the rate `normal . direction` |
| PlaneShape.HitIsExact | raytracing/src/shapes.py:42-49 | for a non-parallel ray, the computed parameter is the only one whose point is on the plane; a parameter at or above the floor whose point is on the plane is the hit's `t` |
| PlaneShape.AnchorHasZeroUV | raytracing/src/shapes.py:67-70 | a hit exactly at the anchor has surface coordinates `(0, 0, 0)` |
| PlaneShape.UVAgreesWithPlane | raytracing/src/shapes.py:60-72 | `PlaneUV` gives the same hit flag, `t`, point and normal as `Plane` with the same anchor and normal |
| CubeShape.ClipAxis | raytracing/src/shapes.py:101-121 | one pass of the slab loop computes the specification `Clip`, and the interval stays non-negative and non-empty |
| CubeShape.Hit | raytracing/src/shapes.py:90-133 | hit exactly when the narrowed interval survives and its entry or exit reaches the floor; `t` is the entry if that reaches the floor, else the exit; the point is inside every slab, with `_get_normal`'s normal; a ray parallel to a slab that starts outside it misses |
| CubeShape.NotAllParallel | raytracing/src/shapes.py:106 | a unit direction has a component at least the parallel tolerance, so some axis bounds the interval |
| CubeShape.EmptyStaysEmpty | raytracing/src/shapes.py:108-121 | once an axis returns a miss, the later axes do not change it |
| CubeShape.ParallelOutsideMisses | raytracing/src/shapes.py:106-109 | a ray parallel to a slab and starting outside it empties the interval |
| CubeShape.ClipMeaning | raytracing/src/shapes.py:106-121 | after one axis, the interval holds `t` exactly when it held `t` before and that slab admits `t` |
| CubeShape.NarrowedMeaning | raytracing/src/shapes.py:100-121 | after `k` axes, the interval holds exactly the non-negative parameters admitted by the first `k` slabs |
| CubeShape.InsideAllSlabs | raytracing/src/shapes.py:124-130 | every parameter of the final interval is admitted by all three slabs |
| CubeShape.EntryIsFirst | raytracing/src/shapes.py:117-124 | no non-negative parameter before the entry is inside all three slabs |
| CubeShape.GetNormal | raytracing/src/shapes.py:135-146 | the normal is an axis unit vector; the x axis is chosen first, then y, then z, when the offset reaches half-size / 1.0001; its sign is that of the offset, and a zero offset gives -1 |
| CubeShape.OutboundFromCenter | raytracing/src/shapes.py:83-133 | from the centre of the unit box along +x, the interval is `[0, 1]` and the exit face's normal is `(1, 0, 0)` |
| CylinderShape.Hit | raytracing/src/shapes.py:156-215 | hit exactly when some candidate is valid (the two side roots, the top cap, the bottom cap); the hit is the record of a valid candidate whose `t` is the smallest, the earliest such candidate on a tie; otherwise the miss |
| CylinderShape.SideHits | raytracing/src/shapes.py:174-192 | after the side test, the record is that of the smallest valid side root, or the miss when there is none |
| CylinderShape.CapHits | raytracing/src/shapes.py:194-213 | after the caps, the record is that of the smallest valid candidate among all four |
| CylinderShape.TrySide | raytracing/src/shapes.py:182-192 | a side root replaces the best so far exactly when it is valid and strictly smaller |
| CylinderShape.TryCap | raytracing/src/shapes.py:195-213 | a cap replaces the best so far exactly when it is valid and strictly smaller |
| CylinderShape.Extend | raytracing/src/shapes.py:183-192 | the strict comparison keeps the running best the smallest valid candidate seen, the earlier one on a tie |
| CylinderShape.SideRootsOnSurface | raytracing/src/shapes.py:157-168 | the side quadratic at `t` is the squared distance of the ray's point from the axis, minus the squared radius |
| CylinderShape.SideCandidateOnSurface | raytracing/src/shapes.py:175-181 | each side candidate lies exactly at the radius from the axis |
| CylinderShape.CapOnPlane | raytracing/src/shapes.py:196-203 | a cap candidate lies in the plane of its cap |
| CylinderShape.AxisParallelHitsOnlyCaps | raytracing/src/shapes.py:175-213 | for a degenerate side quadratic, every valid candidate is a cap, whose normal is the axis or its negation |
| CylinderShape.AlongAxisIsDegenerate | raytracing/src/shapes.py:163-166 | a direction along the axis makes the side quadratic's leading coefficient zero |
| CylinderShape.NoSideCandidates | raytracing/src/shapes.py:175-177 | a degenerate or root-less side quadratic produces no side candidate |
| CylinderShape.SideCandidatesAre | raytracing/src/shapes.py:175-182 | otherwise the side candidates are the near and far roots, in that order |
| CylinderShape.CapNormals | raytracing/src/shapes.py:197-212 | a cap's record carries the axis for the top cap and its negation for the bottom cap |
| ParaboloidShape.Hit | raytracing/src/shapes.py:289-324 | the scan computes the specification `SingleSided`; a hit has `t` above the floor, the ray's point within `[y_min, y_max]` and the material; otherwise the miss |
| ParaboloidShape.HitDoubleSided | raytracing/src/shapes.py:328-339 | the single-sided record with the normal negated when it points along the ray, so that a hit's normal never points along the ray |
| ParaboloidShape.BestIsSmallest | raytracing/src/shapes.py:308-316 | the scan ends at +infinity exactly when no root is admitted; otherwise it ends at an admitted root no larger than any other admitted root |
| ParaboloidShape.OnSurfaceIsRoot | raytracing/src/shapes.py:293-297 | the ray's point at `t` is on `x^2 + z^2 = y` exactly when `t` solves the quadratic |
| ParaboloidShape.HitIsNearestSurfacePoint | raytracing/src/shapes.py:289-324 | a hit lies on the surface; for a non-degenerate quadratic, any admitted parameter on the surface yields a hit no farther away; a degenerate one always misses |
| Transforms.Make | raytracing/src/shapes.py:227-245 | a 3x3 input is embedded in the identity as an affine matrix; a singular matrix gets the identity as inverse; the normal matrix is the transposed upper-left 3x3 block of the inverse; the material is the inner shape's |
| Transforms.Hit | raytracing/src/shapes.py:247-280 | an inner miss is returned unchanged; an inner hit becomes a hit whose point is the inner point mapped by the matrix, whose normal is the inner normal mapped by the inverse-transpose and normalized, with the uv passed through, the transform's material overriding the inner one, and `t` equal to `(world point - origin) . direction` |
| Transforms.EmbedActsLinearly | raytracing/src/shapes.py:231-233 | the embedded 3x3 matrix is affine, keeps its block, and maps object points by the 3x3 matrix |
| Transforms.SingularFallback | raytracing/src/shapes.py:239-260 | after the singular fallback, the object-space ray of a unit ray is the ray itself |
| Transforms.RawNonZero | raytracing/src/shapes.py:257-258 | when the matrix maps the object direction back to a unit direction, the object direction is not zero, so the division by its length is defined |
| Transforms.DotAlongDirection | raytracing/src/shapes.py:275-276 | for a unit direction, the `t_world` formula gives back the parameter of a point on the ray |
| Transforms.WorldHitOnRay | raytracing/src/shapes.py:247-280 | for an invertible affine matrix and a unit ray, an inner hit on the object ray at `s` is a world hit on the world ray at the reported `t`, and that `t` is positive when `s` is |
| Transforms.NormalStaysPerpendicular | raytracing/src/shapes.py:244-245 | the world normal `Hit` reports is perpendicular to every surface direction that is perpendicular to the inner normal, once mapped by the matrix |
| ImplicitSurfaces.IntersectBox | raytracing/src/shapes.py:370-389 | an interval that is returned is ordered and does not lie wholly behind the origin |
| ImplicitSurfaces.SlabInterval | raytracing/src/shapes.py:372-384 | for a non-zero direction component, a slab's interval is where the ray is inside that slab |
| ImplicitSurfaces.AxisSlab | raytracing/src/shapes.py:376-381 | the same, for each axis of the box |
| ImplicitSurfaces.BoxInterval | raytracing/src/shapes.py:383-384 | the latest entry and the earliest exit bound exactly the parameters at which the ray is in the box |
| ImplicitSurfaces.IntersectBoxExact | raytracing/src/shapes.py:370-389 | with no zero direction component, every parameter of the returned interval puts the ray in the box; every non-negative parameter in the box lies in the interval |
| ImplicitSurfaces.HalvedIsDivision | raytracing/src/shapes.py:425-426 | halving `k` times divides by `2^k` |
| ImplicitSurfaces.Bisect | raytracing/src/shapes.py:423-438 | ten bisections keep a sign-changing bracket inside the step, of width `1/1024` of the step |
| ImplicitSurfaces.March | raytracing/src/shapes.py:413-447 | the first pair of consecutive samples across which the field changes sign is found and bisected, the bracket of width `step / 2^10` lying inside that step; when none is found, no pair within the end brackets a sign change |
| ImplicitSurfaces.NoCrossingStep | raytracing/src/shapes.py:421-447 | a step without a sign change extends the crossing-free prefix |
| ImplicitSurfaces.PastEnd | raytracing/src/shapes.py:414-415 | once a sample passes the end, the prefix is crossing-free for every step count |
| ImplicitSurfaces.Hit | raytracing/src/shapes.py:391-449 | missing the box gives `NoHit`; a hit lies in the clamped box interval at the lower end of the first sign-changing step's bisected bracket, with the gradient normal, the material and uv `(0, 0)`; a miss inside the box means no step changes sign |
| ImplicitSurfaces.NoSignChangeNoHit | raytracing/src/shapes.py:421 | a field with one strict sign along the ray brackets no sign change |
| ImplicitSurfaces.HeartShape | raytracing/src/shapes.py:457-459 | the heart field is symmetric in x and in z, is -1 at the origin, and is zero on the ellipse `x^2 + 2.25 z^2 = 1` of the plane `y = 0` |
| ImplicitSurfaces.MitchelShape | raytracing/src/shapes.py:468-475 | the Mitchell field depends on y and z only through `y^2 + z^2`, and is 17 at its centre `(-2.5, 0, 0)` |
| Mesh.Key | tarefaobj.py:44 | the key is `(i, j)` or `(j, i)`, whichever is in increasing order |
| Mesh.Refiner.constructor | tarefaobj.py:38-41 | the vertex list starts as the input vertices, with an empty cache |
| Mesh.Refiner.Midpoint | tarefaobj.py:42-75 | a cached edge returns its index and changes nothing; a new edge appends the projected midpoint, returns its index and caches it; the invariant holds: one appended vertex per cached edge, distinct edges at distinct indices, every appended slot the index of an edge |
| Mesh.Refiner.SplitFace | tarefaobj.py:78-89 | the invariant of one appended vertex per cached edge, at distinct indices covering the appended slots, is kept; the cache grows by the face's three edges and keeps its entries; the four faces are `[v1, a, c]`, `[v2, b, a]`, `[v3, c, b]`, `[a, b, c]` |
| Mesh.Refiner.SplitAll | tarefaobj.py:77-89 | the cache ends holding exactly the mesh's undirected edges, with distinct indices covering the appended vertices, and the faces are the refinement of the input faces |
| Mesh.Subdivide | tarefaobj.py:37-91 | the input vertices stay a prefix; one new vertex per undirected edge, the projected midpoint of that edge; distinct edges get distinct indices and every new slot is some edge's, so the new vertices are exactly the edges' midpoints; the faces are the refinement |
| Mesh.RefineExtends | tarefaobj.py:81-89 | refining uses only the midpoints of the faces' own edges |
| Mesh.RefineLength | tarefaobj.py:86-89 | four faces come out for every face that goes in |
| Mesh.RefineAt | tarefaobj.py:77-89 | faces `4k` to `4k+3` of the result are the four triangles of input face `k`, through the midpoints of its edges |
| Mesh.RefineInRange | tarefaobj.py:77-89 | when the face and midpoint indices are below `n`, so is every index of the result |
| Mesh.SubdividedIsWellFormed | tarefaobj.py:37-91 | the subdivided mesh has four times as many faces, all triangles over the new vertex list |
| Mesh.NormalizeAll | tarefaobj.py:112-119 | each vertex is replaced by its normalization in place; each is left unchanged or gets unit length |
| Mesh.NormalizeIdempotent | tarefaobj.py:124-130 | normalizing twice is normalizing once |
| ObjFormat.IntRoundTrip | tarefaobj.py:26-28 | `int(str(i)) == i` for every integer |
| ObjFormat.NatRoundTrip | tarefaobj.py:103 | reading back the decimal digits written for `n` gives `n` |
| ObjFormat.IndexTokens | tarefaobj.py:103 | one token for each index of the face |
| ObjFormat.ReadFace | tarefaobj.py:22-30 | the loop over an `f` line computes `ParseFace`: the indices minus one, or the first bad token |
| ObjFormat.ReadObj | tarefaobj.py:3-33 | the loop over the lines computes `ParseObj`: vertex and face lists in file order, or the first error |
| ObjFormat.FaceErrorStays | tarefaobj.py:24-30 | a bad token makes the whole face an error |
| ObjFormat.ObjErrorStays | tarefaobj.py:8-32 | an error in some line makes the whole file an error |
| ObjFormat.FaceRoundTrip | tarefaobj.py:103 | the tokens `salvar_obj` writes for a face, read with the `- 1`, give that face back |
| ObjFormat.FaceLineRoundTrip | tarefaobj.py:101-108 | a file holding one face line as `salvar_obj` writes it reads back as exactly that face |
| ObjFormat.OtherLinesSkipped | tarefaobj.py:10-32 | a line that is neither `v` nor `f` changes nothing |
| ObjFormat.BlankLineFails | tarefaobj.py:10-11 | a blank line is an error |
| Quadtree.Explore | modelagem/parabola.py:28-48 | every returned square carries its own classification; a decided box, or level 0, returns the box alone |
| Quadtree.ExploreEach | modelagem/parabola.py:41-46 | the concatenated results carry their own classifications |
| Quadtree.ExploreCount | modelagem/parabola.py:28-48 | `explore` returns between 1 and `4^level` squares |
| Quadtree.QuadrantAreas | modelagem/parabola.py:38-46 | the four quadrants share out the box's area |
| Quadtree.ExploreKeepsMeasure | modelagem/parabola.py:28-48 | for any measure that the quadrants share out, the returned squares measure what the box measures |
| Quadtree.ExploreKeepsArea | modelagem/parabola.py:28-48 | the areas of the returned squares add up to the box's area |
| Quadtree.QuadrantsWithin | modelagem/parabola.py:38-46 | the quadrants are well formed and inside the box |
| Quadtree.ExploreWithin | modelagem/parabola.py:28-48 | every returned square is well formed and inside the box |
| ParabolaRegions.Classify | modelagem/parabola.py:5-25 | the classification is -1, 0 or 1 |
| ParabolaRegions.HeightBounds | modelagem/parabola.py:6-14 | over the box's x-range, the parabola stays between the computed minimum and maximum |
| ParabolaRegions.AboveIsExact | modelagem/parabola.py:16-17 | 1 is given exactly to the boxes that lie strictly above the curve |
| ParabolaRegions.BelowIsExact | modelagem/parabola.py:21-22 | -1 is given exactly to the boxes that lie strictly below the curve |
| ParabolaRegions.ExploreIsSound | modelagem/parabola.py:28-48 | every square `explore` tags 1 is above the curve, every one it tags -1 is below, and a square tagged 0 is neither |
| CircleRegions.InCircle | tarefa_modelagem.py:5-16 | returns the squared distance; inside, on and outside hold exactly when it is below, equal to and above `r^2` |
| CircleRegions.Classify | tarefa_modelagem.py:19-44 | the classification is -1, 0 or 1 |
| CircleRegions.ClampIsNearest | tarefa_modelagem.py:24-25 | the clamped coordinate is in range and at least as near the centre as any coordinate in range |
| CircleRegions.FartherIsFarthest | tarefa_modelagem.py:34-35 | the chosen end is at least as far from the centre as any coordinate in range |
| CircleRegions.ClosestIsNearest | tarefa_modelagem.py:24-27 | the clamped point is in the box and no farther from the centre than any point of it |
| CircleRegions.FarthestIsFarthest | tarefa_modelagem.py:34-38 | the chosen corner is in the box and no nearer to the centre than any point of it |
| CircleRegions.OutsideIsExact | tarefa_modelagem.py:27-29 | 1 is given exactly to the boxes that lie strictly outside the circle |
| CircleRegions.InsideIsExact | tarefa_modelagem.py:38-41 | -1 is given exactly to the boxes that lie strictly inside the circle |
| CircleRegions.ExploreIsSound | tarefa_modelagem.py:47-64 | every square `explore` tags 1 is outside, every one it tags -1 is inside, and a square tagged 0 is neither |
| Shapes2D.CircleMatchesInCircle | src/shapes.py:9-12 | `Circle.in_out` holds exactly when `in_circle` does not say outside |
| Shapes2D.RimIsInside | src/shapes.py:12 | points on the rim count as inside |
| Shapes2D.CenterIsInside | src/shapes.py:9-12 | the centre is inside for every radius |
| Shapes2D.ReflectionKeepsAnswer | src/shapes.py:9-12 | a point and its mirror image through the centre get the same answer |
| Shapes2D.CircleIsImplicit | src/shapes.py:55-56 | `ImplicitFunction.in_out` with the field `d^2 - r^2` agrees with `Circle.in_out` everywhere |
| Mandelbrot.InOut | mandelbrot.py:4-29 | true exactly when none of `z_1 .. z_n` has `|z|^2 > 4`, where `n` is the iteration count (100 unless given), or 0 when that count is negative |
| Mandelbrot.EscapesWithinMeans | mandelbrot.py:17-26 | escaping within `n` steps means that some iterate `z_k`, `1 <= k <= n`, has escaped |
| Mandelbrot.EscapeStays | mandelbrot.py:17-26 | a point that escapes within `m` steps escapes within any larger count |
| Mandelbrot.InsideForFewerIterations | mandelbrot.py:17-29 | a point inside after `n` iterations is inside after fewer |
| Mandelbrot.NoIterationsMeansInside | mandelbrot.py:17-29 | with zero or negative iterations, every point is inside |
| Mandelbrot.OriginIsFixed | mandelbrot.py:15-22 | the origin's orbit stays at 0 |
| Mandelbrot.OriginIsInside | mandelbrot.py:15-29 | the origin is inside for every count |
| Mandelbrot.FarPointEscapes | mandelbrot.py:19-26 | a point with `|c|^2 > 4` is outside after one step |
| Rotation.RotatePoint | rotated_raster.py:10-31 | the offset from the pivot is turned by the inverse angle: `(tx c + ty s, -tx s + ty c)` |
| Rotation.PivotIsFixed | rotated_raster.py:10-31 | the pivot stays put |
| Rotation.ZeroTurnIsIdentity | rotated_raster.py:22-28 | an angle with cosine 1 and sine 0 moves no point |
| Rotation.KeepsDistance | rotated_raster.py:16-31 | when `cos^2 + sin^2 = 1`, the distance to the pivot is kept |
| Rotation.UndoesForward | rotated_raster.py:12-13 | when `cos^2 + sin^2 = 1`, `rotate_point` undoes the forward rotation |
| Rotation.ForwardUndoes | rotated_raster.py:12-13 | the forward rotation undoes `rotate_point` |
| Supersampling.IntSqrt | ssaa_raster.py:18 | `g*g <= n < (g+1)*(g+1)` |
| Supersampling.GetSamples | ssaa_raster.py:11-48 | a negative count is an error, exactly; a zero count is an error, exactly; a positive count gives the `g x g` grid for `g = int(sqrt(n))`, row by row |
| Supersampling.FillGrid | ssaa_raster.py:22-46 | the nested loops produce the grid specification `Grid` |
| Supersampling.Cell | ssaa_raster.py:27-46 | the inner loop body produces the sample of row `i` and column `j` |
| Supersampling.FilterWeight | ssaa_raster.py:35-44 | the if-chain computes the filter weight `Weight` |
| Supersampling.GridAt | ssaa_raster.py:24-46 | the grid has `g*g` samples; sample `k` is row `k / g` (its `dy`) and column `k % g` (its `dx`) |
| Supersampling.OffsetBounds | ssaa_raster.py:27-32 | every offset lies strictly between -0.5 and 0.5 |
| Supersampling.OffsetSpacing | ssaa_raster.py:22-28 | neighbouring cells are one step `1/g` apart |
| Supersampling.OffsetMirror | ssaa_raster.py:27-32 | cell `g-1-k` mirrors cell `k` through the pixel centre |
| Supersampling.WeightMirror | ssaa_raster.py:35-44 | mirroring an offset keeps its weight |
| Supersampling.GridMirror | ssaa_raster.py:24-46 | sample `g*g-1-k` is sample `k` mirrored through the centre, with the same weight |
| Supersampling.UnitWeight | ssaa_raster.py:36-39 | the box filter, and any name other than `hat` or `gaussian`, weighs 1 |
| Supersampling.HatWeightBounds | ssaa_raster.py:40-41 | the hat weight lies in `[0, 1]` and is 0 exactly at distance 0.5 and beyond |
| Supersampling.HatPeak | ssaa_raster.py:40-41 | the hat weight at the centre is 1 |
| Supersampling.SingleSample | ssaa_raster.py:18-46 | one requested sample is the pixel centre itself |
| Supersampling.SampleCount | ssaa_raster.py:18-20 | a positive count gives a positive grid size and at most `n` samples; exactly `n` when `n` is a perfect square |

## Left out

- Floating point: the model computes with exact reals, so rounding, overflow, infinities other than the ray parameter `+inf`, and NaN are not modelled.
- The square root, `exp`, `cos` and `sin` are parameters. Only `IsSqrt` is assumed about the square root: it returns a non-negative root. `Vector3D.normalize` (src/vector3d.py is not part of this model) is taken to leave a zero vector unchanged, as `normalizar_todos_vertices` does.
- ImplicitSurfaces.NoHit: the source's `NoHit` object carries only `hit`, `material` and a two-component `uv = (0, 0)`, with no `t`, `point` or `normal` attribute, so reading `t` from it would raise an error. The model gives it the shape of every other record: `t` is +infinity, no point, no normal, and the uv `(0, 0)` becomes `(0, 0, 0)`.
- `HitRecord`, `CastEpsilon`, `Ray.point_at_parameter` and the `Shape` base class come from src/base.py, which is not part of this model. They are modelled from their use in the shapes.
- BallShape.Hit: requires a non-zero direction. The source divides by `2a = 2 d.d`, which fails for a zero direction. The contract does not state the miss record for a non-negative discriminant (a miss carrying the far root as `t`); the function body has it.
- CubeShape.Hit: requires a unit direction. A direction whose components are all below the tolerance, from an origin inside the box, would give a hit at `t = inf` in the source; the model does not represent that hit.
- ImplicitSurfaces.Hit: requires at least one march step, because `num_steps = 0` divides by zero.
- ImplicitSurfaces.Hit: the reciprocal `1e30` of a zero direction component is kept as the constant `Huge`. `IntersectBoxExact` states exactness only for directions with no zero component. Because arithmetic is exact, the early exit `t_next > t_end` never triggers.
- ImplicitSurfaces.GradientNormal: `get_normal` is modelled as the normalized central-difference gradient, and nothing is proved about how well it approximates the true normal.
- The 3-D `ImplicitFunction.in_out` (raytracing/src/shapes.py:79-80) is not modelled separately. It is the same test as `Shapes2D.ImplicitFunction.InOut`.
- Transforms.Hit: requires the inner shape to give a point and a normal on a hit, as every modelled shape does. The source would fail on a missing one.
- Transforms: `numpy.linalg.inv` is a parameter, with `None` for a singular matrix. `ObjectRay` normalizes the object-space direction; where the source would divide by a zero length, `Normalize` leaves the zero vector.
- ParaboloidShape.HitDoubleSided: the `try`/`except` around the normal flip is not modelled. The flip cannot fail on the modelled values.
- Mesh: the projection of a new midpoint onto the sphere, including its division by the midpoint's length, is the parameter `project`; only the bookkeeping is proved.
- Mesh.Subdivide: requires every face to be a triangle of indices of the input vertices, as do Mesh.Refiner.SplitAll and Mesh.Refiner.SplitFace. The `ValueError` a face of another size raises when it is unpacked, and Python's negative or out-of-range face indices, are not modelled.
- Mesh.Refiner.Midpoint: requires indices of the original vertices. Python's negative indices and out-of-range errors are not modelled.
- ObjFormat: file reading and writing, the splitting of lines on white space, the header comment, and the vertex lines of `salvar_obj` with their float formatting are left out. `float` is a parameter.
- ObjFormat.ParseInt: accepts an optional sign and ASCII decimal digits only. Python's `int` also accepts digit-group underscores and non-ASCII digits.
- Supersampling.GetSamples: the printed warning for a count that is not a perfect square is left out. The errors Python raises (`math.sqrt` of a negative count, a division by a zero grid size) are error values. `int(math.sqrt(n))` is modelled as the exact integer square root, which floating point can miss for very large `n`.
- Quadtree.ExploreWithin: states containment and, with `ExploreKeepsArea`, total area, but not that the returned squares are pairwise disjoint.
- Quadtree.Explore: the level is a natural number. The source with a negative level would recurse until the classification decides.
- `Triangle.in_out` (Heron's-formula areas compared with a tolerance), the camera, scenes, plotting, `main` functions and the Monte Carlo and plain rasterizers are outside the modelled core.
