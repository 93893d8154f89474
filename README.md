# silmaril path tracer: a Dafny model of the core

This project models the core of `silmaril`, a small path tracer that follows "Ray Tracing in One Weekend" and its sequel.
It covers:

- the vector and ray algebra;
- the hittable objects (spheres, moving spheres, axis-aligned rectangles, blocks, lists and bounding volume
  hierarchy nodes) with their `hit` and `bounding_box` operations;
- axis-aligned bounding boxes and the box comparators the hierarchy sorts with;
- the three materials' `scatter` rules;
- the solid and checker textures;
- the Perlin lattice tables;
- the shading recursion `ray_color` and the channel arithmetic of `write_color`.

The model uses `real` for the source's `f32`. `sqrt`, `sin`, `acos` and `atan2` come in through `Weekend.Libm`, a
datatype of arbitrary functions with no axioms. Where a proof needs a property of `sqrt`, the lemma says so as a
`requires` (`SqrtNonnegative`, `SqrtExactAt`). Every random draw is an input constrained by the range `random` promises.

The modules follow the source files:

| module | source file | form |
|---|---|---|
| `Wrappers` | (Rust `Option`, `Ordering`) | datatypes |
| `Vectors` | `src/vec3.rs` | functions; the compound assignments and rejection loops as methods |
| `Rays` | `src/ray.rs` | datatype with member functions |
| `Weekend` | `src/rtweekend.rs` | functions |
| `PerlinNoise` | `src/perlin.rs` | class over arrays; the fill and shuffle loops as methods |
| `Aabbs` | `src/aabb.rs` | datatype; `hit` as a method with the source's loop |
| `HitRecords`, `Spheres`, `Hittables`, `Lists` | `src/hittable.rs` | functions over `HitRecord`; class `HittableList` with its loops |
| `Bvh` | `src/bvh.rs` | recursive build function |
| `Rects` | `src/aarect.rs` | functions |
| `Blocks` | `src/block.rs` | method building the six sides, lemmas |
| `MovingSpheres` | `src/moving_sphere.rs` | functions |
| `Materials`, `Scattering` | `src/material.rs` | functions |
| `Textures` | `src/texture.rs` | recursive datatype and functions |
| `Render` | `src/main.rs` | recursive function and pixel arithmetic |

A `hit(ray, t_min, t_max, &mut hit_record)` call is modelled as a function from the record passed in to a pair of the
boolean result and the record afterwards. This makes the threading of one record through a list, a block and a BVH node
explicit. For example, a moving sphere does not write `u` and `v`, so those fields carry over from earlier objects.
`Hittables.Hittable` gathers every object kind the renderer stores behind `Rc<dyn Hittable>`.

## Model

| member | source | states |
|---|---|---|
| `Wrappers.CompareReals` | src/aabb.rs:68-70 | `partial_cmp(..).unwrap()` on two reals: `Less`, `Equal` or `Greater` exactly as `a < b`, `a == b`, `a > b` |
| `Vectors.New` | src/vec3.rs:13-17 | every `None` component defaults to 0, every `Some` component is stored |
| `Vectors.LenSquared` | src/vec3.rs:30-32 | the squared length is never negative |
| `Vectors.NegInvolutive` | src/vec3.rs:131-139 | `-(-v) == v` |
| `Vectors.DotSymmetric` | src/vec3.rs:40-42 | `dot` is symmetric |
| `Vectors.CrossOrthogonal` | src/vec3.rs:46-52 | `cross(a, b)` is orthogonal to both `a` and `b` |
| `Vectors.LenSquaredOfSum` | src/vec3.rs:30-32 | `len_squared(a + b) == len_squared(a) + 2 (a . b) + len_squared(b)` |
| `Vectors.ReflectFlipsNormalComponent` | src/vec3.rs:102-104 | for a unit normal `n`, `reflect(v, n) . n == -(v . n)` |
| `Vectors.NearZeroIsShort` | src/vec3.rs:96-100 | a vector with every component below `1e-8` in magnitude has squared length below `3e-16` |
| `Vectors.AddAssign` | src/vec3.rs:141-147 | the component-by-component `+=` gives the same vector as `+` |
| `Vectors.MulAssign` | src/vec3.rs:149-155 | `*= s` gives the same vector as `* s` |
| `Vectors.DivAssign` | src/vec3.rs:157-163 | `/= d`, multiplying by `1.0 / d`, gives the same vector as `/ d` |
| `Vectors.RandomInUnitSphere` | src/vec3.rs:70-80 | the rejection loop returns the first draw with squared length below 1; it returns none exactly when every draw is rejected |
| `Vectors.RandomInUnitDisk` | src/vec3.rs:114-128 | the first accepted pair, with `z == 0` and squared length below 1; none exactly when every pair is rejected |
| `Vectors.RandomInHemisphere` | src/vec3.rs:86-94 | the draw or its negation, whichever has a nonnegative dot product with the normal; the length is kept |
| `Rays.Ray.At` | src/ray.rs:32-34 | `at(t) - origin == direction * t` |
| `Rays.New` | src/ray.rs:10-16 | a missing origin or direction defaults to zero and a missing time to 0 |
| `Rays.NewGetters` | src/ray.rs:10-26 | the getters return exactly what was passed to `new` |
| `Rays.NewDefaults` | src/ray.rs:10-16 | `Ray::new(None, None, None)` is the zero ray at time 0 |
| `Rays.AtZero` | src/ray.rs:32-34 | `at(0) == origin` |
| `Weekend.DegreesToRadians` | src/rtweekend.rs:6-8 | `r * 180 == degrees * PI` |
| `Weekend.DegreesToRadiansLinear` | src/rtweekend.rs:6-8 | 180 degrees map to `PI`, and the map is additive and homogeneous |
| `Weekend.Clamp` | src/rtweekend.rs:19-27 | gives `min` below the range and `max` above it (when `min <= x`), and `x` inside it; lies in `[min, max]` whenever `min <= max` |
| `Weekend.ClampIdempotent` | src/rtweekend.rs:19-27 | on an ordered range, clamping twice equals clamping once |
| `Weekend.ClampInvertedRange` | src/rtweekend.rs:19-27 | on an inverted range, clamping is not idempotent: a value below `min` goes to `min`, and `min` then goes to `max` |
| `Weekend.TruncI32` | src/perlin.rs:49-51 | Rust's float `as i32`: rounds toward zero and saturates at the `i32` bounds |
| `Weekend.TruncTowardZero` | src/main.rs:120-122 | the cast never moves its input away from zero |
| `PerlinNoise.Identity` | src/perlin.rs:16-18 | the table before shuffling has `p[i] == i` for every `i < 256` |
| `PerlinNoise.IdentityFilled` | src/perlin.rs:14-18 | a 256-entry table with `p[k] == k` everywhere is the identity table |
| `PerlinNoise.Swap` | src/perlin.rs:27-29 | one swap exchanges the two entries, leaves every other entry alone and keeps the multiset |
| `PerlinNoise.ShuffledPermutes` | src/perlin.rs:24-31 | `permute` keeps the multiset of entries |
| `PerlinNoise.ShuffledKeepsTail` | src/perlin.rs:25-26 | with targets below `i`, no entry above the loop's first index ever moves |
| `PerlinNoise.PermutationBounds` | src/perlin.rs:53 | every entry of a permutation of `0..256` is an index below 256 |
| `PerlinNoise.GeneratedPermutation` | src/perlin.rs:13-22 | the generated table is a permutation of `0..256` with `p[255] == 255` |
| `PerlinNoise.LatticeIndex` | src/perlin.rs:49-51 | `(4 * c) as i32 & 255` lies in `[0, 255]` for every coordinate |
| `PerlinNoise.Xor3` | src/perlin.rs:53 | the XOR of three entries below 256 is below 256 |
| `PerlinNoise.Perlin.GeneratePerm` | src/perlin.rs:13-22 | a fresh 256-entry array holding the shuffled identity, a permutation of `0..256` |
| `PerlinNoise.Perlin.FloatTable` | src/perlin.rs:34-38 | a fresh 256-entry array holding the draws, each in `[0, 1)` |
| `PerlinNoise.Perlin.Permute` | src/perlin.rs:24-31 | the descending swap loop leaves the array equal to `Shuffled` of its old contents |
| `PerlinNoise.Perlin.constructor` | src/perlin.rs:33-46 | `ran_float` holds the draws, and each `perm` table is the shuffled identity for its targets; the whole object is `Valid` |
| `PerlinNoise.Perlin.Noise` | src/perlin.rs:48-54 | every index is in bounds; the result is one of the `ran_float` entries, hence in `[0, 1)` |
| `Aabbs.New` | src/aabb.rs:13-22 | `new(a, b)` stores `a` as `maximum` and `b` as `minimum`; `max()` and `min()` return them |
| `Aabbs.SlabBoundsRepeat` | src/aabb.rs:25-40 | a second pass over the bounds a first pass produced changes nothing |
| `Aabbs.Pass` | src/aabb.rs:26-35 | one loop body (the `inv_d`, `t0`, `t1`, swap and two updates) tightens the bounds to the x-slab |
| `Aabbs.Hit` | src/aabb.rs:24-43 | the three-pass loop, with its early `return false`, equals the single x-slab test `SlabX` |
| `Aabbs.InsideXIff` | src/aabb.rs:26-35 | the ray is strictly inside the x-slab at `t` exactly when `t` lies strictly between the swapped `t0` and `t1` |
| `Aabbs.SlabXSound` | src/aabb.rs:24-43 | when `hit` succeeds, some `t` strictly between its `t_min` and `t_max` arguments has the ray strictly inside the slab |
| `Aabbs.SlabXComplete` | src/aabb.rs:24-43 | when such a `t` exists, `hit` succeeds |
| `Aabbs.SlabXEmptyWindow` | src/aabb.rs:34-38 | when the `t_max` argument does not exceed the `t_min` argument, `hit` is false for every box |
| `Aabbs.SlabXReadsOnlyX` | src/aabb.rs:26-28 | `hit` depends only on the x components of the box and the ray |
| `Aabbs.SlabXMissesOffAxis` | src/aabb.rs:26-28 | the written test accepts a ray that the three-axis test rejects and that is inside the unit box at no `t` of the window |
| `Aabbs.AxisPass` | src/aabb.rs:26-35 | one pass of the loop reading component `a` (the `inv_d`, `t0`, `t1`, swap and two updates) tightens the bounds to the slab of axis `a` |
| `Aabbs.HitAxes` | src/aabb.rs:24-43 | the same loop with its early `return false`, reading component `a` on pass `a`, computes the three-axis test `Slabs` |
| `Aabbs.AxisCrossings` | src/aabb.rs:26-32 | for either sign of the direction component, the line is strictly between the two slab planes exactly when `t` is strictly between the swapped crossings |
| `Aabbs.InsideAxisIff` | src/aabb.rs:26-32 | on axis `a`, the ray is strictly inside the slab at `t` exactly when `t` lies strictly between the entry and the exit |
| `Aabbs.SlabsSound` | src/aabb.rs:24-43 | when the three-axis test succeeds, some `t` strictly inside the window puts the ray strictly inside the box |
| `Aabbs.SlabsComplete` | src/aabb.rs:24-43 | when some `t` strictly inside the window puts the ray strictly inside the box, the three-axis test succeeds |
| `Aabbs.SurroundingBox` | src/aabb.rs:45-58 | the result's `maximum` field is the componentwise min of the `min()`s, and its `minimum` field the componentwise max of the `max()`s |
| `Aabbs.SurroundingBoxCommutes` | src/aabb.rs:45-58 | `surrounding_box` is commutative |
| `Aabbs.SurroundingBoxSelf` | src/aabb.rs:46-57 | `surrounding_box(a, a)` swaps the two fields, and applying it twice gives `a` back |
| `Aabbs.SurroundingBoxSelfNeverInside` | src/aabb.rs:45-58 | no ray inside a box at `t` is inside `surrounding_box(a, a)` at `t` |
| `Aabbs.SurroundingBoxOriented` | src/aabb.rs:45-58 | with `big` in the `maximum` field, the result's `maximum` is at least both boxes' maxima and its `minimum` at most both minima, on every axis |
| `Aabbs.SurroundingBoxOrientedContains` | src/aabb.rs:45-58 | a ray inside either box at `t` is inside the oriented surrounding box at `t` |
| `Aabbs.CompareMinimum` | src/aabb.rs:68-70 | the order on the `minimum` fields at the given axis |
| `HitRecords.Empty` | src/hittable.rs:19-29 | zero point, normal, `t`, `u` and `v`, no front face and no material |
| `HitRecords.SetFaceNormal` | src/hittable.rs:31-38 | front face exactly when `dir . outward < 0`; the normal is the outward normal or its negation accordingly, and `dir . normal <= 0`; no other field changes |
| `Spheres.New` | src/hittable.rs:53-59 | stores the centre, radius and material |
| `Spheres.QuadraticFor` | src/hittable.rs:78-82 | `a == len_squared(d)`, `half_b == oc . d`, `c == len_squared(oc) - r^2`, and the discriminant is `half_b^2 - a c` |
| `Spheres.SelectRoot` | src/hittable.rs:88-97 | the near root if it lies in `[t_min, t_max]`, else the far root if it does, else none |
| `Spheres.SelectRootNearest` | src/hittable.rs:88-97 | with `a > 0` and `sqrtd >= 0`, the near root is the smaller one, and the selected root is the smallest root in the window |
| `Spheres.SelectRootNarrowing` | src/hittable.rs:88-97 | a narrower window keeps the selected root exactly when it still fits, and otherwise selects none |
| `Spheres.RootSolvesQuadratic` | src/hittable.rs:88-97 | when `sqrtd^2` is the discriminant, both candidate roots solve `a t^2 + 2 half_b t + c = 0` |
| `Spheres.SphereUv` | src/hittable.rs:61-73 | when `acos` and `atan2` are in their principal ranges, `u` and `v` lie in `[0, 1]` |
| `Spheres.SphereUvOnPositiveX` | src/hittable.rs:65 | the documented point `<1 0 0>` maps to `<0.50 0.50>` |
| `Spheres.Hit` | src/hittable.rs:77-107 | a hit exactly when the discriminant is nonnegative and a root is selected; the record is untouched on failure; on success it holds that root (in the window), `ray.at(t)`, the material and a normal facing the ray |
| `Spheres.HitOverwritesRecord` | src/hittable.rs:99-104 | a successful hit writes every field, so its result does not depend on the record passed in |
| `Spheres.HitNarrowing` | src/hittable.rs:77-107 | a hit in a narrower window is the wider window's hit when that one still fits, and there is none otherwise |
| `Spheres.RootOnSurface` | src/hittable.rs:78-82 | a solution of the ray's quadratic puts `ray.at(t)` on the sphere |
| `Spheres.CandidateOnSurface` | src/hittable.rs:88-97 | when `sqrt` squares back to the discriminant, either candidate root puts the ray on the sphere |
| `Spheres.HitOnSurface` | src/hittable.rs:99-100 | when `sqrt` squares back to the discriminant, the recorded point lies on the sphere |
| `Spheres.BoundingBox` | src/hittable.rs:109-121 | always a box, with `maximum == center - r` and `minimum == center + r`, following `AABB::new`'s argument order |
| `Spheres.BoundingBoxNeverHit` | src/hittable.rs:109-121 | for a nonnegative radius those inverted fields make the box's x-slab test fail for every ray |
| `Spheres.OrientedBoundingBox` | src/hittable.rs:109-121 | with the high corner `center + r` in the `maximum` field, a positive radius puts the centre strictly inside the box on every axis |
| `Spheres.OrientedBoxHitThroughCentre` | src/hittable.rs:109-121 | a ray that passes through the centre inside the window passes the three-axis test of the oriented box |
| `Hittables.Hit` | src/bvh.rs:74-88 | every object's `hit`, a BVH node's included, leaves the record untouched on failure and records a `t` in `[t_min, t_max]` on success |
| `Hittables.ListHit` | src/hittable.rs:151-165 | the list's `hit` leaves the record untouched on a miss and records a `t` in the window on a hit |
| `Hittables.Scan` | src/hittable.rs:156-162 | one loop pass per object: `closest_so_far` never increases, a success is never undone, and after a success the output equals the scratch record and the window ends at its `t` |
| `Hittables.BoundingBox` | src/hittable.rs:167-188 | every object except a list always reports a box; an empty list reports none and leaves the output box alone |
| `Hittables.HitIgnoresRecord` | src/hittable.rs:151-165 | whether any object is hit, and at which `t`, does not depend on the record passed in |
| `Hittables.ScanIgnoresOut` | src/hittable.rs:156-162 | the caller's record matters to the list loop only until its first success |
| `Hittables.ScanFindsAnyHit` | src/hittable.rs:151-165 | the loop from its initial state finds a hit exactly when some object is hit in the full window |
| `Hittables.ListHitIff` | src/hittable.rs:151-165 | `HittableList::hit` is true exactly when some child is hit in `[t_min, t_max]` |
| `Hittables.BvhNodeNeverHits` | src/bvh.rs:75-77 | because the node passes its window into `AABB::hit`'s parameters in the opposite order, a node never reports a hit and never writes the record |
| `Hittables.Descend` | src/bvh.rs:79-87 | the search below a node, left child over the whole window and then right child up to the left hit's `t`, leaves the record untouched on failure and records a `t` in the window on success |
| `Hittables.NodeHitThreads` | src/bvh.rs:74-88 | when the box test, called with `(t_min, t_max)` in its `(t_max, t_min)` slots, fails, the node fails without writing; otherwise the node's result is `Descend`, the right child receiving the record the left child left |
| `Hittables.NodeHitOrdered` | src/bvh.rs:74-88 | the node with the box test's bounds in the intended order and all three axes tested: a box miss fails without writing; a failure leaves the record; a success records a `t` in the window |
| `Hittables.NodeHitOrderedIsListHit` | src/bvh.rs:79-87 | once its box is hit, the intended node is hit exactly when the left or the right child is, and at the same `t` as `HittableList::hit` over `[left, right]` |
| `Hittables.BoxIgnoresScratch` | src/hittable.rs:167-188 | whether a box exists, and which box it is, does not depend on the output box passed in |
| `Hittables.FoldBoxesSpec` | src/hittable.rs:172-187 | the `first_box` loop succeeds exactly when every child has a box, and then is the left fold of `surrounding_box` over the children's boxes |
| `Hittables.ListBoundingBox` | src/hittable.rs:167-188 | false for an empty list and whenever some child has no box; otherwise the left fold of `surrounding_box` over the children's boxes, which for one child is that child's box |
| `Hittables.HitNarrowing` | src/hittable.rs:151-165 | for every object, a hit in a narrower window is the wider window's hit when it still fits, and there is none otherwise |
| `Hittables.ListHitNarrowing` | src/hittable.rs:151-165 | the same for the list's `hit` |
| `Hittables.ScanNarrowing` | src/hittable.rs:156-162 | a scan over a narrower window tracks the scan over the wider one |
| `Hittables.ListHitNearest` | src/hittable.rs:151-165 | if some child is hit in the window, the list is hit, at a `t` no larger than that child's |
| `Hittables.ScanNearest` | src/hittable.rs:156-162 | the loop's final `closest_so_far` is at most the `t` of any child hit in the current window |
| `Lists.HittableList.constructor` | src/hittable.rs:137-147 | `new(None)` is empty and `new(Some(h))` holds exactly `[h]` |
| `Lists.HittableList.Add` | src/hittable.rs:129-131 | appends at the end |
| `Lists.HittableList.Clear` | src/hittable.rs:133-135 | leaves no objects |
| `Lists.HittableList.Hit` | src/hittable.rs:151-165 | the loop over `temp`, `hit_anything` and `closest_so_far` computes exactly the list's `Hittables.Hit` |
| `Lists.HittableList.BoundingBox` | src/hittable.rs:167-188 | the loop with its early returns computes exactly the list's `Hittables.BoundingBox` |
| `Bvh.BoxCompare` | src/aabb.rs:60-71 | the order of the two boxes' `minimum` fields at the axis; a missing box for `a` only prints a diagnostic, and `b` is then compared as the zero box |
| `Bvh.BoxXCompare` | src/aabb.rs:73-75 | `Less` exactly when `a`'s `minimum.x` is below `b`'s |
| `Bvh.BoxYCompare` | src/aabb.rs:76-78 | the same on `y` |
| `Bvh.BoxZCompare` | src/aabb.rs:79-81 | the same on `z` |
| `Bvh.ComparatorAxis` | src/bvh.rs:25-33 | axis 0 picks the x comparator, 1 the y comparator and anything else the z comparator |
| `Bvh.CompareIsKeyOrder` | src/aabb.rs:60-71 | with both boxes present, `box_compare` is `Less` exactly when the first key is the smaller |
| `Bvh.InsertBy` | src/bvh.rs:50 | inserting one element keeps the multiset (plus that element) |
| `Bvh.SortBy` | src/bvh.rs:50 | the sorted vector is a permutation of the input |
| `Bvh.InsertBySorted` | src/bvh.rs:50 | inserting into a sorted vector keeps it sorted by the comparator's key |
| `Bvh.SortBySorted` | src/bvh.rs:50 | when every object has a box, the sorted vector is ordered by the comparator's key |
| `Bvh.InsertByBack` | src/bvh.rs:50 | an element whose key is no smaller than the last one's goes to the back |
| `Bvh.InsertByFront` | src/bvh.rs:50 | an element whose key is smaller than every other goes to the front |
| `Bvh.SortByAscending` | src/bvh.rs:50 | the stable sort leaves a vector whose keys already rise, ties included, unchanged |
| `Bvh.SortLastFirst` | src/bvh.rs:50 | sorting an in-order vector followed by an element of lower key than all of it puts that element first and keeps the rest in order |
| `Bvh.Build` | src/bvh.rs:17-71 | the result is a node whose two children are each an element of the source vector or a node built the same way |
| `Bvh.From` | src/bvh.rs:13-15 | `from` over a non-empty list builds a node whose leaves all come from the list |
| `Bvh.BuildSpanOne` | src/bvh.rs:38-40 | with a span of one, both children are `objects[start]` |
| `Bvh.BuildSpanTwo` | src/bvh.rs:41-48 | with a span of two, the pair stays in order exactly when the comparator says `Less`, and is swapped otherwise |
| `Bvh.BuildSplits` | src/bvh.rs:49-53 | with a span of three or more, both children come from the sorted clone of the whole vector over `[start, mid)` and `[mid, end)` with `mid == start + span / 2`, both non-empty and shorter |
| `Bvh.BuildBox` | src/bvh.rs:56-69 | `bounding_box` of the node is its cached box, and that box surrounds the children's boxes when both exist |
| `Bvh.StaggeredByY` | src/bvh.rs:50 | sorting five staggered objects on y puts the last one first and the other four after it in order |
| `Bvh.TopChildren` | src/bvh.rs:49-53 | over staggered objects, the top node sorts on x, leaves them in place, and its left child holds objects 0 and 1 |
| `Bvh.RightHalfChildren` | src/bvh.rs:24-53 | the right half `[2, 5)` sorts the whole clone on y; its left leaf is object 1 and its right pair objects 2 and 3 |
| `Bvh.StaggeredRightHalf` | src/bvh.rs:24-53 | the leaves of the right half are objects 1, 2 and 3 |
| `Bvh.StaggeredBuild` | src/bvh.rs:24-53 | the node's leaves are objects 0 and 1 from the left half and objects 1, 2 and 3 from the right half |
| `Bvh.WholeSortLosesObjects` | src/bvh.rs:24-53 | over staggered objects, object 4 is never a leaf, object 1 is a leaf twice, and the leaves are not the input |
| `Bvh.MarkersStaggered` | src/bvh.rs:24-53 | five concrete objects, with x keys 0 to 4 and y keys 0, 0, 0, 0, -1, are staggered |
| `Bvh.SortSpan` | src/bvh.rs:50 | sorting only `objects[start..end]` keeps the multiset of that span |
| `Bvh.SortSpanKeepsRest` | src/bvh.rs:50 | sorting the span leaves the rest of the clone where it was |
| `Bvh.BuildSpanSorted` | src/bvh.rs:17-71 | the build with span-only sorting makes a node whose leaves are exactly the objects of `src[start..end]`, each once |
| `Bvh.SplitNode` | src/bvh.rs:49-53 | a span of three or more, sorted alone and split at `start + span / 2`, has exactly the span's objects as leaves |
| `Bvh.SpanSortKeepsObjects` | src/bvh.rs:24-53 | over the same staggered objects, the span-sorted build keeps every object exactly once |
| `Rects.XYRectNew` | src/aarect.rs:15-31 | stores the ranges, `k` and the material for the x-y plane |
| `Rects.XZRectNew` | src/block.rs:35-42 | the x-z rectangle that `Block::new` builds, by analogy with `XYRect::new` |
| `Rects.YZRectNew` | src/block.rs:52-59 | the y-z rectangle that `Block::new` builds, by analogy with `XYRect::new` |
| `Rects.PlaneT` | src/aarect.rs:36 | `t * dir.z == k - origin.z`, the parameter at which the ray meets the plane |
| `Rects.Along` | src/aarect.rs:42-43 | `origin + t * dir` componentwise is `ray.at(t)` |
| `Rects.Hit` | src/aarect.rs:35-58 | the record is untouched on failure; on success `t` is the plane crossing, in the window, and the point is `ray.at(t)` with the rectangle's material |
| `Rects.HitIffInside` | src/aarect.rs:36-47 | a hit exactly when the crossing lies in the window and inside both ranges |
| `Rects.HitRecordsCrossing` | src/aarect.rs:42-55 | on success the point lies at `k` inside both ranges; `u` and `v` are in `[0, 1]` for proper ranges; front face exactly when `dir.z < 0`; the normal is `+-(0, 0, 1)` |
| `Rects.PlaneCrossing` | src/aarect.rs:55 | the crossing point's fixed coordinate is `k` |
| `Rects.BoundingBox` | src/aarect.rs:60-67 | always a box, with `maximum == (x0, y0, k - 0.0001)` and `minimum == (x1, y1, k + 0.0001)` |
| `Rects.BoundingBoxNeverInside` | src/aarect.rs:60-67 | the box as written is inverted on the rectangle's own axis, so no ray is ever inside it |
| `Rects.OrientedBoundingBox` | src/aarect.rs:60-67 | the intended box, with the high corner `(a1, b1, k + 0.0001)` in the `maximum` field |
| `Rects.OrientedBoxHitThroughRect` | src/aarect.rs:35-67 | a ray that meets the plane strictly inside both ranges, inside the window, passes the three-axis test of the oriented box |
| `Rects.BoundingBoxIgnoresTimes` | src/aarect.rs:60-67 | the box does not depend on the two times |
| `Blocks.Sides` | src/block.rs:17-67 | exactly six sides |
| `Blocks.New` | src/block.rs:14-74 | six successive `add`s build the block with `box_min == point0`, `box_max == point1` and those sides |
| `Blocks.SidesShareMaterial` | src/block.rs:17-67 | every side is a rectangle carrying the block's material |
| `Blocks.FourthSide` | src/block.rs:43-50 | the fourth side is an `XYRect` over the x and z ranges, at `point0.y` |
| `Blocks.SidesPerPlane` | src/block.rs:17-67 | three sides lie in x-y planes, one in an x-z plane and two in y-z planes |
| `Blocks.SidesIntended` | src/block.rs:17-67 | the six intended sides |
| `Blocks.SidesIntendedFourth` | src/block.rs:43-50 | only the fourth side differs from the written one, and it is an `XZRect` at `point0.y` over the x and z ranges |
| `Blocks.SidesIntendedPerPlane` | src/block.rs:17-67 | two sides lie in each plane, one at each corner's offset along that plane's axis |
| `Blocks.HitIsSidesHit` | src/block.rs:78-80 | `hit` is the list hit over the six sides, true exactly when some side is hit |
| `Blocks.BlockBoundingBox` | src/block.rs:82-86 | always a box with `maximum == point1` and `minimum == point0`, whatever the times |
| `MovingSpheres.New` | src/moving_sphere.rs:15-31 | stores both centres, both times, the radius and the material |
| `MovingSpheres.CenterAtEndpoints` | src/moving_sphere.rs:33-36 | `center(time0) == center0` and `center(time1) == center1` |
| `MovingSpheres.CenterAtMidpoint` | src/moving_sphere.rs:33-36 | halfway in time, the centre is halfway between the two centres |
| `MovingSpheres.Hit` | src/moving_sphere.rs:40-69 | the sphere's root selection against the centre at the ray's time; the record is untouched on failure; on success it holds the root, `ray.at(t)`, the material and a normal facing the ray, and `u`, `v` carry over |
| `MovingSpheres.HitIsStillSphereHit` | src/moving_sphere.rs:40-69 | apart from `u` and `v`, the hit is the still sphere's hit at the ray's time |
| `MovingSpheres.HitNarrowing` | src/moving_sphere.rs:47-60 | narrowing the window keeps the hit exactly when its `t` still fits |
| `MovingSpheres.BoundingBox` | src/moving_sphere.rs:71-80 | `surrounding_box(box0, box0)` of the box at `time0`, so `maximum` is the high corner and `minimum` the low corner |
| `MovingSpheres.BoundingBoxIgnoresTime1` | src/moving_sphere.rs:71-80 | the box depends on `time0` only |
| `Materials.LambertianFrom` | src/material.rs:21-25 | a solid-colour texture of the given colour |
| `Materials.LambertianNew` | src/material.rs:26-28 | stores the texture |
| `Materials.MetalNew` | src/material.rs:62-67 | keeps a fuzz below 1 and uses 1 otherwise, with no lower bound |
| `Materials.DielectricNew` | src/material.rs:95-99 | stores the refraction index |
| `Materials.PowiUnitInterval` | src/material.rs:106 | `powi` of a value in `[0, 1]` stays in `[0, 1]` |
| `Materials.R0` | src/material.rs:103-104 | Schlick's `r0` is never negative |
| `Materials.ReflectanceNormalIncidence` | src/material.rs:101-107 | `reflectance(1, r) == ((1 - r) / (1 + r))^2` |
| `Materials.R0Below1` | src/material.rs:103-104 | a positive index gives `r0` in `[0, 1)` |
| `Materials.ReflectanceBounds` | src/material.rs:101-107 | for a cosine in `[0, 1]` and a positive index, the reflectance lies in `[r0, 1]` |
| `Scattering.LambertianScatter` | src/material.rs:39-52 | always scatters, with attenuation `albedo.value(u, v, point)`, off `normal + sample`, or off the normal when that sum is near zero |
| `Scattering.MetalScatter` | src/material.rs:78-86 | attenuation is the albedo; scatters exactly when the fuzzed reflection leaves the surface |
| `Scattering.RefractionRatio` | src/material.rs:119-123 | `1 / index` on the front face, `index` on the back face |
| `Scattering.DielectricScatter` | src/material.rs:118-140 | always scatters with attenuation `(1, 1, 1)`; reflects when refraction is impossible or the reflectance beats the draw, and refracts otherwise |
| `Scattering.TotalInternalReflection` | src/material.rs:127-134 | when `ratio * sin_theta > 1`, the reflected direction is chosen whatever the draw |
| `Scattering.ScatterOff` | src/material.rs:45-49 | every scattered ray starts at the hit point at the incoming ray's time, and only a metal can refuse to scatter |
| `Scattering.LambertianFromAttenuation` | src/material.rs:50 | a Lambertian built by `from(albedo)` attenuates by exactly that colour |
| `Scattering.MetalWithoutFuzzIgnoresDraw` | src/material.rs:78-83 | with zero fuzz the draw does not matter: the direction is the mirror reflection |
| `Textures.SolidColorNew` | src/texture.rs:14-18 | `new(None)` is black and `new(Some(c))` stores `c` |
| `Textures.SolidColorFrom` | src/texture.rs:20-22 | `from(r, g, b)` is the colour `(r, g, b)` |
| `Textures.CheckerNew` | src/texture.rs:37-39 | the first argument is the even texture |
| `Textures.CheckerFrom` | src/texture.rs:41-46 | `color1` goes to the even slot and `color2` to the odd slot |
| `Textures.Value` | src/texture.rs:50-58 | the colour is always one of the texture's solid colours |
| `Textures.SolidValueIgnoresCoordinates` | src/texture.rs:26-28 | a solid colour ignores `u`, `v` and `p` |
| `Textures.CheckerFromColors` | src/texture.rs:50-58 | `color2` where the sine product is negative, and `color1` elsewhere, including where it is zero |
| `Textures.CheckerOfSame` | src/texture.rs:50-58 | a checker of one texture twice is that texture |
| `Textures.ValueDependsOnlyOnSign` | src/texture.rs:50-58 | the colour depends on `p` only through the sign of the sine product |
| `Render.RayColor` | src/main.rs:126-156 | black once the depth is used up; the background on a miss; a panic for a hit without a material; `emitted` alone when the material does not scatter |
| `Render.RayColorBounce` | src/main.rs:155 | a scattering bounce gives `emitted + attenuation * ray_color(scattered, depth - 1)` |
| `Render.EmptyWorldShowsBackground` | src/main.rs:133-135 | a world every ray misses shows the background |
| `Render.RayColorDefined` | src/main.rs:139-146 | when every hit carries a material, the `unwrap()` calls never panic |
| `Render.RayColorBounded` | src/main.rs:126-156 | without emitters, with attenuations and background in the unit cube, the colour stays in the unit cube |
| `Render.ChannelByte` | src/main.rs:120-122 | `(256 * clamp(x, 0, 0.999)) as i32` lies in `[0, 255]` |
| `Render.ChannelByteMonotone` | src/main.rs:120-122 | the channel mapping is monotone and sends 0 to 0 and 1 to 255 |
| `Render.WriteColor` | src/main.rs:109-124 | each channel is divided by the sample count, gamma-corrected by `sqrt` and mapped to a byte in `[0, 255]` |
| `Render.Scaled` | src/main.rs:113-116 | `scale * x` with `scale = 1 / n` is `x / n` |

## Findings

Each place below is modelled as written, with a lemma that exhibits the discrepancy, and again as evidently intended,
with the intended property proved.

| source | as written | input that shows it | evidently intended | confidence | as-written member | corrected member |
|---|---|---|---|---|---|---|
| src/aabb.rs:26-28 | every pass of `for a in 0..3` reads `x()`, so the test is the x-slab test three times | the unit box and a ray from `(-1, 5, 0.5)` along `(1, 1, 1)` over `(0, 10)`: the ray crosses the x slab for `t` in `(1, 2)` but is then far above the box | pass `a` reads component `a`; the test then succeeds exactly when some `t` in the window puts the ray inside the box (`Aabbs.SlabsSound`, `Aabbs.SlabsComplete`) | not executed | `Aabbs.SlabXMissesOffAxis` | `Aabbs.HitAxes` |
| src/bvh.rs:75 | `self.bbox.hit(ray, t_min, t_max)` fills the `(t_max, t_min)` parameters of `AABB::hit` in the opposite order | any node and any window with `t_min <= t_max`: the box test fails, so no node is ever hit | pass `t_max` then `t_min`; once its box is hit, the node then answers as the list of its two children (`Hittables.NodeHitOrderedIsListHit`) | not executed | `Hittables.BvhNodeNeverHits` | `Hittables.NodeHitOrdered` |
| src/hittable.rs:109-121 | `AABB::new(center - r, center + r)` puts the low corner in the `maximum` field | any sphere with a nonnegative radius: the box's slab test fails for every ray | the high corner first; a ray through the centre then passes the box (`Spheres.OrientedBoxHitThroughCentre`) | not executed | `Spheres.BoundingBoxNeverHit` | `Spheres.OrientedBoundingBox` |
| src/aarect.rs:60-67 | `AABB::new` receives `(x0, y0, k - 0.0001)` first | any rectangle: the box is inverted on its own axis, so no ray is ever inside it | the high corner first; a ray through the rectangle then passes the box (`Rects.OrientedBoxHitThroughRect`) | not executed | `Rects.BoundingBoxNeverInside` | `Rects.OrientedBoundingBox` |
| src/aabb.rs:45-58 | `AABB::new(small, big)` puts the low corner in the `maximum` field | `surrounding_box(a, a)` for any box `a`: no ray inside `a` is inside the result | `AABB::new(big, small)`; the result then contains both boxes (`Aabbs.SurroundingBoxOrientedContains`) | not executed | `Aabbs.SurroundingBoxSelfNeverInside` | `Aabbs.SurroundingBoxOriented` |
| src/bvh.rs:50 | a sub-span sorts the whole clone of the source vector and then reads its `[start, mid)` and `[mid, end)` | five objects with x keys 0 to 4 and y keys 0, 0, 0, 0, -1 (`Bvh.MarkersStaggered`), the y comparator drawn only for `[2, 5)`: object 4 is never a leaf and object 1 is a leaf twice | sort only `objects[start..end]`; every object of the span is then a leaf exactly once (`Bvh.SpanSortKeepsObjects`) | not executed | `Bvh.WholeSortLosesObjects` | `Bvh.BuildSpanSorted` |
| src/block.rs:43-50 | the fourth side is `XYRect::new(x0, x1, z0, z1, point0.y)` | any block: three sides lie in x-y planes and one in an x-z plane, so the face at `point0.y` is missing | `XZRect::new(x0, x1, z0, z1, point0.y)`; each plane then holds two sides, one at each corner (`Blocks.SidesIntendedPerPlane`) | not executed | `Blocks.SidesPerPlane` | `Blocks.SidesIntended` |

`MovingSphere::bounding_box` (src/moving_sphere.rs:71-80) also passes the low corner to `AABB::new` first. It then
returns `surrounding_box(box0, box0)`, whose own inversion swaps the fields back, so its box has the high corner in
`maximum` (`MovingSpheres.BoundingBox`, `Aabbs.SurroundingBoxSelf`). `Block::bounding_box` passes `box_max` first and
gets the expected orientation directly.

## Left out

- `src/camera.rs`: viewport, lens and time sampling are float geometry; `camera.rs` is not part of this model.
- `NoiseTexture`, `ImageTexture` and `DiffuseLight`: `NoiseTexture::value` calls `turbulence`, which `src/perlin.rs`
  does not define. The other two and `Material::emitted` are referenced but not defined in the files modelled. `emitted`
  is a parameter of `Render.RayColor`.
- `XZRect` and `YZRect` are referenced but not defined. `Rects.AaRect` models them by analogy with `XYRect`.
- IEEE `f32` effects: rounding, NaN, infinities from division by zero, and the `partial_cmp().unwrap()` panic on NaN.
  Divisions carry nonzero-divisor preconditions instead (collected in `Hittables.Defined` and the `HitDefined`
  predicates).
- `INFINITY`: `Render.RayColor` takes the world's hit over `[0.001, INFINITY)` as a function of the ray.
- Randomness: each draw is an input with the range `random` promises. Distributions are not modelled, and the
  `random_unit_vector` sample that Lambertian scattering consumes is unconstrained. `Vec3::random` and
  `random_unit_vector` have no operation of their own.
- `Vectors.RandomInUnitSphere`, `Vectors.RandomInUnitDisk`: the source loops forever until a draw is accepted. The
  model scans a finite stream of draws and returns none when it runs out.
- `Bvh.SortBy`: `sort_by` is a library call. It is modelled as a stable insertion sort, so where elements compare equal,
  the order of the result is that of a stable sort.
- `Bvh.Build`, `Bvh.From`: both require a non-empty range. With a span of 0, `BvhNode::new` recurses on the same range
  forever, for example `from` on an empty list.
- The random axis of each `BvhNode::new` call is `axisOf(start, end)`, a function of the node's range.
- `Vectors.AddAssign`, `Vectors.MulAssign`, `Vectors.DivAssign`: `Vec3` is a value type, so the in-place updates return
  the updated vector instead of mutating through a reference.
- `Spheres.HitOnSurface`, `Spheres.CandidateOnSurface`: these assume `sqrt` squares back to the discriminant exactly,
  which IEEE rounding does not give.
- `Aabbs.HitAxes`, `Aabbs.Slabs`, `Hittables.NodeHitOrdered`: the three-axis test requires every component of the
  direction to be nonzero. Under IEEE arithmetic the source also handles rays parallel to an axis, through infinities.
- `Rc` sharing and dynamic dispatch: the objects are values of one datatype.
- Scene builders, `main`'s pixel loop and all printing (src/main.rs:29-106, 158 onward). `Render.WriteColor` models the
  channel arithmetic only.
