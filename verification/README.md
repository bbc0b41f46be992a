# cc-predict core, modelled in Dafny

cc-predict is a crowd-counting prediction service. A camera image goes through a
density model whose output is a density map one eighth of the 1920 x 1080 model
input (240 x 135 pixels). The core modelled here is everything the service does
with such maps and with the project configuration around them:

- **Counting** (`RegionCount`): the total and the per-mask counts of
  `make_prediction`, rounded half-to-even.
- **Interpolation** (`SelectiveIdw`, `IdwPrime`, `ProximityKernel`,
  `NeighbourScan`): the two inverse-distance interpolators that repair
  low-valued pixels inside counting masks, and the kernel they share.
- **Masks** (`CameraUtils`, `StartupMasks`, `Masks`): the counting polygons,
  scaled from camera pixels to density pixels, in both the startup version and
  the per-camera version.
- **Perspective** (`Perspective`): the perspective transformer that maps a
  sensor-plane point to the ground plane.
- **Ground grid** (`GroundGrid`, `Gridding`, `StartupGrid`, `LegacyGrid`,
  `CameraUtils`): the three gridding functions that bucket density pixels into
  1 m x 1 m ground cells.
- **Exports** (`DensityExport`): the totals saved per ground cell, the size of
  the downsized image, and the heatmap levels.
- **Schedules** (`Schedules`, `ProjectConfig`): the schedule rules that pick the
  counting model at a time of day, and the validator that forbids overlapping
  schedules.
- **Lookups and checks** (`CameraService`, `ProjectCheck`, `SaveFlag`): the
  camera and configuration lookups, the configuration check over all projects,
  and the `save_predictions` flag of the prediction endpoint.

Shared helpers:

- `Results` holds `Option` and `Result`. An exception the source raises is an
  `Err`.
- `PyNum` restates Python's `round`, `int`, `math.floor`, `math.ceil`, `max`
  and negative list indexing over unbounded integers and exact reals.
- `PyDict` models a Python `dict` as its items in insertion order.

The startup functions share one loop over camera metadata (`StartupMetadata`):
cameras, then positions, storing under the key `f"{camera}_{position}"`.

Calls into libraries the model cannot see are parameters:

- Shapely's `polygon.covers(Point(x, y))` is a `CoverFn`.
- The kernel weight `1 / distance^p` is a `WeightFn`.
- The rotation axis and angle of the perspective transformer come from an
  `Orientation` function; normalisation, the cross product and `arccos` are
  left to it.
- The density model itself, and any interpolator object passed to
  `make_prediction`, are functions given to the model.

## Model

| member | source | states |
|---|---|---|
| PyNum.Round | app/utils/model_prediction/make_prediction.py:91-93 | Python's `round`: the result is within one half of the input, and a tie goes to the even neighbour |
| PyNum.RoundIsUnique | app/utils/model_prediction/make_prediction.py:91-93 | those two properties single out one integer, so `Round` is exactly Python's rounding |
| PyNum.RoundTies | app/utils/startup/create_masks.py:23-24 | 2.5 rounds to 2, 3.5 to 4, 0.5 to 0 and -2.5 to -2 |
| PyNum.Trunc | app/utils/database_helper_functions.py:79-85 | `int()` on a float truncates toward zero, on either side of zero |
| PyNum.Floor | app/utils/camera_utils.py:196-199 | `np.floor` as an integer: the largest integer not above the input |
| PyNum.Ceil | app/utils/camera_utils.py:196-199 | `np.ceil` as an integer: the smallest integer not below the input |
| PyNum.PyIndex | app/utils/interpolation/selective_idw_interpolator.py:97-100 | a list index succeeds iff it lies in `[-len, len)`; a negative index counts from the end |
| PyNum.Max | utils/idw_prime_interpolator.py:100-106 | `max(a, b)` is one of its arguments and at least both |
| PyDict.Get | app/utils/model_prediction/make_prediction.py:88 | a lookup finds a value iff the key was assigned |
| PyDict.Set | app/utils/model_prediction/make_prediction.py:88 | an assignment adds the key; it keeps the size when the key exists and appends when it does not |
| PyDict.GetAfterSet | app/utils/model_prediction/make_prediction.py:88 | after `d[k] = v`, key `k` reads `v` and every other key reads what it read before |
| PyDict.SetKeepsUniqueKeys | app/utils/model_prediction/make_prediction.py:88 | an assignment never creates a second item with the same key |
| PyDict.Union | app/utils/model_prediction/make_prediction.py:91-93 | `a \| b` has the keys of both operands |
| PyDict.GetUnion | app/utils/model_prediction/make_prediction.py:91-93 | in `a \| b` the right-hand operand wins on a shared key |
| PyDict.LastValue | app/utils/startup/create_masks.py:16-33 | after a run of assignments, a key holds the value of the last assignment to it |
| PyDict.GetUnionLast | app/utils/startup/create_masks.py:16-33 | assigning a run of items onto a dict leaves each key with its last assigned value, else its old one |
| Results.AllOk | app/utils/startup/perspective/perspective_transformer.py:40-43 | a run of steps succeeds iff every step does, with their values in order; otherwise it fails with the first failing step's error |
| RegionCount.ZeroCounts | app/utils/model_prediction/make_prediction.py:79 | `{mask.name: 0 for mask in masks}` has one key per distinct mask name, each holding 0 |
| RegionCount.AddPixel | app/utils/model_prediction/make_prediction.py:86-88 | after one pixel, every name has gained the pixel value once for each of its masks that covers the pixel |
| RegionCount.AddRow | app/utils/model_prediction/make_prediction.py:83-88 | one row adds its plain sum to the total, and to each name its sum over the covered pixels, weighted by coverage |
| RegionCount.Count | app/utils/model_prediction/make_prediction.py:78-88 | the total is the sum of every pixel, and each mask name holds the sum over its masks of the pixels they cover |
| RegionCount.GetRoundAll | app/utils/model_prediction/make_prediction.py:91-93 | rounding every value keeps the keys and rounds the value under each key |
| RegionCount.MakePrediction | app/utils/model_prediction/make_prediction.py:73-96 | the map is interpolated iff an interpolator is given; `"total"` holds the rounded pixel sum unless a mask is named `"total"`; every mask name holds its rounded covered sum |
| RegionCount.DuplicateMaskCountsTwice | app/utils/model_prediction/make_prediction.py:86-88 | a mask listed twice contributes its covered sum twice |
| RegionCount.UncoveredIsZero | app/utils/model_prediction/make_prediction.py:79-88 | a name whose masks cover no pixel counts 0, whatever the map |
| ProximityKernel.Offsets | app/utils/interpolation/selective_idw_interpolator.py:120-130 | the kernel holds exactly the non-zero integer offsets within the radius, in loop order (column offset, then row offset); none for a radius of 0 or less |
| ProximityKernel.Build | app/utils/interpolation/selective_idw_interpolator.py:120-130 | each kernel entry pairs an offset within the radius with its weight for exponent `p`, strictly in loop order |
| ProximityKernel.BuildHasDistinctOffsets | utils/idw_prime_interpolator.py:111-122 | no offset appears twice, so the kernel is a well-formed dict |
| ProximityKernel.InKernelIsBounded | app/utils/interpolation/selective_idw_interpolator.py:125-128 | every kernel offset lies within the square `[-radius, radius]`, so the loop ranges miss none |
| NeighbourScan.Accumulate | app/utils/interpolation/selective_idw_interpolator.py:92-105 | the kernel loop accepts a neighbour iff it read a non-zero value; the weight sum is positive iff one was accepted; it remembers the last value read, even a zero |
| NeighbourScan.WeightedSumBounds | app/utils/interpolation/selective_idw_interpolator.py:104-105 | the weighted sum lies between the weight sum times any lower and any upper bound of the accepted values |
| NeighbourScan.MeanBounds | app/utils/interpolation/selective_idw_interpolator.py:112-115 | `sum(w * v) / sum(w)` lies between any bounds of the accepted values |
| NeighbourScan.LastReadIsZero | utils/idw_prime_interpolator.py:99 | when nothing was accepted, the last value read can only be 0 |
| NeighbourScan.LastProbeRead | app/utils/interpolation/selective_idw_interpolator.py:97-100 | a value read by the final kernel step is the remembered value |
| Masks.Relevant | app/utils/interpolation/selective_idw_interpolator.py:44 | the relevant masks are exactly the given masks that ask for interpolation |
| SelectiveIdw.New | app/utils/interpolation/selective_idw_interpolator.py:27-37 | the constructor fails on a negative radius, then on an exponent below 1, then on a negative threshold; otherwise it keeps the threshold and builds the kernel of the radius, its offsets strictly in loop order |
| SelectiveIdw.ReadWrapped | app/utils/interpolation/selective_idw_interpolator.py:97-100 | a neighbour read succeeds iff both indices lie within `[-len, len)`, and then reads the pixel at those indices, a negative index counting from the far end |
| SelectiveIdw.InterpolatePoint | app/utils/interpolation/selective_idw_interpolator.py:84-117 | with no accepted neighbour the pixel keeps its value; otherwise it is the larger of the weighted mean and the last value read |
| SelectiveIdw.InterpolateRow | app/utils/interpolation/selective_idw_interpolator.py:60-81 | a row keeps its length; only pixels at or below the threshold and covered by a relevant mask are recomputed |
| SelectiveIdw.Apply | app/utils/interpolation/selective_idw_interpolator.py:40-57 | the map keeps its shape; without an interpolating mask it is returned as it is; otherwise exactly the qualifying pixels are recomputed |
| SelectiveIdw.ApplyAboveThreshold | app/utils/interpolation/selective_idw_interpolator.py:73-75 | a map whose every value is above the threshold comes back unchanged |
| SelectiveIdw.ApplyEmptyKernel | app/utils/interpolation/selective_idw_interpolator.py:120-130 | with radius 0 the kernel is empty and the interpolator is the identity |
| SelectiveIdw.PointWithin | app/utils/interpolation/selective_idw_interpolator.py:108-117 | a recomputed pixel stays within any bounds of the map's values |
| SelectiveIdw.ApplyWithin | app/utils/interpolation/selective_idw_interpolator.py:40-57 | interpolation never leaves the range of the input map's values |
| SelectiveIdw.ReadChecked | app/utils/interpolation/selective_idw_interpolator.py:97-100 | the corrected read succeeds iff both indices lie inside the map, and then it returns that pixel |
| SelectiveIdw.IntendedPoint | app/utils/interpolation/selective_idw_interpolator.py:108-115 | the corrected rule never lowers a pixel; a changed pixel is the weighted mean of its in-bounds non-zero neighbours |
| SelectiveIdw.IntendedWithin | app/utils/interpolation/selective_idw_interpolator.py:108-115 | the corrected pixel lies between its own value and any upper bound of the map |
| SelectiveIdwExamples.OffsetsRadiusOne | app/utils/interpolation/selective_idw_interpolator.py:120-130 | radius 1 keeps the four axis neighbours, in the order left, up, down, right |
| SelectiveIdwExamples.FillsFromNeighbours | app/utils/interpolation/selective_idw_interpolator.py:40-117 | on `[[5, 0], [0, 0]]` with radius 1 and threshold 0, the two zeros next to the 5 become 5 and the zero whose neighbours are all zero stays 0 |
| SelectiveIdwExamples.LastReadWins | app/utils/interpolation/selective_idw_interpolator.py:112-115 | at `(1, 0)` of `[[1, 0, 10]]` the pixel becomes 10 as written, while the corrected rule gives less than 10 |
| SelectiveIdwExamples.LeftEdgeWraps | app/utils/interpolation/selective_idw_interpolator.py:97-100 | at `(0, 0)` of `[[0, 0, 9]]` column -1 reads the 9 at the far end as written; the corrected rule keeps 0 |
| IdwPrime.New | utils/idw_prime_interpolator.py:29-39 | the constructor fails on a radius of 0 or less, then on an exponent below 1, then on a negative threshold; a built kernel always holds the right-hand neighbour |
| IdwPrime.Fetch | utils/idw_prime_interpolator.py:85-93 | a neighbour outside the frame (first row's width, row count) is skipped; inside it is read, and a short row raises `IndexError` |
| IdwPrime.SkippedOutside | utils/idw_prime_interpolator.py:88-89 | a kernel step is skipped exactly when its neighbour lies outside the frame |
| IdwPrime.Point | utils/idw_prime_interpolator.py:80-108 | a pixel raises `IndexError` iff an in-frame neighbour lies past a short row, and `UnboundLocalError` iff no neighbour is in the frame; with nothing accepted it becomes 0; otherwise it is the larger of the weighted mean and the last value read |
| IdwPrime.Cell | utils/idw_prime_interpolator.py:71-75 | a pixel is recomputed iff it is at or below the threshold and covered by a relevant mask |
| IdwPrime.Row | utils/idw_prime_interpolator.py:60-77 | a row succeeds iff each of its pixels does, and then has the same length |
| IdwPrime.Apply | utils/idw_prime_interpolator.py:42-57 | without an interpolating mask the map is returned unchanged; otherwise every row is recomputed against the relevant masks |
| IdwPrime.ApplyPixels | utils/idw_prime_interpolator.py:60-77 | the call fails if any pixel fails; on success every pixel holds its cell's value |
| IdwPrime.PointWithin | utils/idw_prime_interpolator.py:99-108 | a computed pixel stays within any bounds of the map's values |
| IdwPrime.SinglePixelRaises | utils/idw_prime_interpolator.py:99 | a qualifying pixel of a single-pixel map raises `UnboundLocalError` |
| IdwPrimeExamples.NoNeighbourDropsPixel | utils/idw_prime_interpolator.py:98-99 | in `[[c, 0]]` the pixel `(0, 0)` becomes 0 as written, while the corrected rule keeps `c` |
| StartupMasks.ScaleEdge | app/utils/startup/create_masks.py:22-25 | a camera pixel goes to the nearest density pixel, a tie to the even one |
| StartupMasks.ScaleEdgeUnique | app/utils/startup/create_masks.py:22-25 | those bounds single out the scaled vertex |
| StartupMasks.HalfwayEdges | app/utils/startup/create_masks.py:23-24 | pixel 20 goes to density pixel 2 and pixel 28 to 4, by half-to-even rounding |
| Masks.MakePolygon | app/utils/startup/create_masks.py:20-28 | Shapely's `Polygon` raises `ValueError` iff the shell is non-empty and too short for a ring: one or two vertices, or three whose last repeats the first; otherwise the polygon keeps the vertices |
| StartupMasks.AreaMask | app/utils/startup/create_masks.py:17-29 | an area raises iff its shell of scaled vertices is too short for a ring; otherwise its mask keeps its name and interpolation flag and has one scaled vertex per edge, in order |
| StartupMasks.PositionMasks | app/utils/startup/create_masks.py:16-33 | raises iff some area does; otherwise one mask per area of the position, in the order of its area metadata |
| StartupMasks.CreateMasks | app/utils/startup/create_masks.py:7-35 | raises iff some area of some position does; otherwise the result has exactly the keys of the camera positions |
| StartupMasks.CreateMasksGet | app/utils/startup/create_masks.py:16-33 | each key holds the masks of a position with that key |
| StartupMasks.TwoEdgesRaise | app/utils/startup/create_masks.py:20-28 | an area with two edges anywhere makes the whole call raise |
| StartupMetadata.Key | app/utils/startup/create_masks.py:16 | the key is the camera id, an underscore, then the position name |
| StartupMetadata.KeysCollide | app/utils/startup/create_masks.py:16 | camera `a_b` at position `c` and camera `a` at position `b_c` share a key |
| StartupMetadata.Collect | app/utils/startup/perspective/transformed_density_helper_functions.py:20-81 | the loop succeeds iff every step does, and the result has the keys the steps stored |
| StartupMetadata.ItemsOk | app/utils/startup/perspective/transformed_density_helper_functions.py:20-81 | the loop runs through iff every camera passes its guard and every visited position passes its step |
| StartupMetadata.CollectKeys | app/utils/startup/perspective/transformed_density_helper_functions.py:81 | a key is stored iff a visited position with that key stored a value |
| StartupMetadata.CollectValue | app/utils/startup/perspective/transformed_density_helper_functions.py:81 | a key holds what a visited position with that key stored |
| StartupMetadata.CollectGet | app/utils/startup/perspective/transformed_density_helper_functions.py:81 | a key holds the value of the last assignment to it |
| StartupInterpolators.CreateInterpolatorsOk | app/utils/interpolation/selective_idw_interpolator.py:134-148 | the call succeeds iff every position with interpolation settings has valid ones |
| StartupInterpolators.CreateInterpolatorsGet | app/utils/interpolation/selective_idw_interpolator.py:134-148 | each key holds the interpolator built from the settings of a position with that key |
| StartupInterpolators.SettingsGiveEntry | app/utils/interpolation/selective_idw_interpolator.py:139-146 | every position with settings gets an entry under its key |
| Perspective.Skew | app/utils/startup/perspective/perspective_transformer.py:77-83 | the cross-product matrix is antisymmetric |
| Perspective.SkewIsCross | app/utils/startup/perspective/perspective_transformer.py:77-83 | `K @ v` is the cross product of the axis with `v` |
| Perspective.Rodrigues | app/utils/startup/perspective/perspective_transformer.py:85 | the rotation leaves its axis fixed |
| Perspective.RodriguesAtZero | app/utils/startup/perspective/perspective_transformer.py:85 | a rotation by angle zero is the identity |
| Perspective.Lift | app/utils/startup/perspective/perspective_transformer.py:22-24 | the ground centre lies on the plane `y = 0` |
| Perspective.New | app/utils/startup/perspective/perspective_transformer.py:17-70 | the constructor fails iff the camera position is not three-dimensional; it keeps the focal length, and the translation moves the camera position to the origin |
| Perspective.SolverSystem | app/utils/startup/perspective/perspective_transformer.py:96-120 | the system exists iff the focal length is non-zero |
| Perspective.SolverSystemMeaning | app/utils/startup/perspective/perspective_transformer.py:96-120 | a ground point solves `rho g = tau` iff it lies on the camera ray through the sensor point |
| Perspective.Solve2 | app/utils/startup/perspective/perspective_transformer.py:42 | `np.linalg.solve` succeeds iff the determinant is non-zero, and then returns a solution |
| Perspective.Solve2Unique | app/utils/startup/perspective/perspective_transformer.py:42 | a regular system has no other solution |
| Perspective.ToGround | app/utils/startup/perspective/perspective_transformer.py:41-43 | the ground point lies on the camera ray; the point fails iff the focal length is zero or the system is singular |
| Perspective.ToGroundUnique | app/utils/startup/perspective/perspective_transformer.py:41-43 | the returned ground point is the only one on the ray |
| Perspective.TransformToGroundPlane | app/utils/startup/perspective/perspective_transformer.py:36-45 | a tuple gives one ground point and a list gives one per point, in order; the first failing point fails the batch |
| GroundGrid.Linspace | app/utils/startup/perspective/transformed_density_helper_functions.py:32-41 | `np.linspace(a, b, n)` has `n` values, starts at `a`, ends at `b` and steps evenly |
| GroundGrid.LinspaceAscends | app/utils/startup/perspective/transformed_density_helper_functions.py:32-36 | with `a < b` the values increase strictly |
| GroundGrid.LinspaceDecreasing | app/utils/startup/perspective/transformed_density_helper_functions.py:37-41 | with `b < a` the values decrease strictly |
| GroundGrid.Meshgrid | app/utils/startup/perspective/transformed_density_helper_functions.py:42-43 | the flattened meshgrid has one point per pair of coordinates |
| GroundGrid.MeshgridAt | app/utils/startup/perspective/transformed_density_helper_functions.py:42-43 | flattened point `k` pairs column `k % w` of the x values with row `k / w` of the y values |
| GroundGrid.SensorSamples | app/utils/startup/perspective/transformed_density_helper_functions.py:32-43 | one sensor sample per density pixel |
| GroundGrid.SamplesAscendAlongRow | app/utils/startup/perspective/transformed_density_helper_functions.py:32-43 | along a row the sensor x coordinate increases |
| GroundGrid.SamplesDescendDownRows | app/utils/startup/perspective/transformed_density_helper_functions.py:37-43 | one row further down the sensor y coordinate decreases |
| GroundGrid.MinOf | app/utils/startup/perspective/transformed_density_helper_functions.py:59-62 | `.min()` is an element and at most every element |
| GroundGrid.MaxOf | app/utils/startup/perspective/transformed_density_helper_functions.py:59-62 | `.max()` is an element and at least every element |
| GroundGrid.BoundsOf | app/utils/startup/perspective/transformed_density_helper_functions.py:59-62 | the floored minima and ceiled maxima enclose every ground point |
| GroundGrid.InCellIsFloor | app/utils/startup/perspective/transformed_density_helper_functions.py:69-74 | a point lies in the half-open cell `[x, x+1) x [y, y+1)` iff `x` and `y` are the floors of its coordinates |
| GroundGrid.Matching | app/utils/startup/perspective/transformed_density_helper_functions.py:69-74 | `np.where` lists exactly the pixels in the cell, ascending |
| GroundGrid.Bucket | app/utils/startup/perspective/transformed_density_helper_functions.py:59-79 | bucketing fails iff there are no points; otherwise no cell key is stored twice |
| GroundGrid.BucketGet | app/utils/startup/perspective/transformed_density_helper_functions.py:66-79 | each cell of the range holds its pixels, and an empty cell is stored only when empty cells are kept |
| GroundGrid.BucketKeys | app/utils/startup/perspective/transformed_density_helper_functions.py:66-79 | every key is the centre of a cell in the range |
| GroundGrid.BucketPartition | app/utils/startup/perspective/transformed_density_helper_functions.py:66-79 | a pixel is listed under the cell that holds it and no other, and nowhere when a coordinate equals the exclusive upper bound |
| GroundGrid.DroppedCellsAreEmpty | app/utils/perspective/transformed_density_helper_functions.py:67-68 | when empty cells are dropped, every stored cell lists a pixel |
| Gridding.GroundPoints | app/utils/startup/perspective/transformed_density_helper_functions.py:46-57 | every sensor sample gets its ground point on the camera ray, in sample order; the first singular sample fails the batch |
| Gridding.GroundCells | app/utils/startup/perspective/transformed_density_helper_functions.py:46-79 | gridding one position succeeds iff there are samples and all map to the ground, and then no cell key repeats |
| Gridding.GroundCellsPartition | app/utils/startup/perspective/transformed_density_helper_functions.py:66-79 | a pixel is listed under exactly the cell of its ground point, except on the exclusive upper bound |
| Gridding.GroundCellsNonEmpty | app/utils/perspective/transformed_density_helper_functions.py:67-68 | with empty cells dropped, every stored cell lists a pixel |
| StartupGrid.GriddedIndicesOk | app/utils/startup/perspective/transformed_density_helper_functions.py:20-81 | the call succeeds iff every camera with a sensor size can be gridded at each of its positions |
| StartupGrid.GriddedIndicesGet | app/utils/startup/perspective/transformed_density_helper_functions.py:20-81 | every key belongs to a position of a camera with a sensor size and holds that position's cells |
| StartupGrid.EmptyCellStored | app/utils/startup/perspective/transformed_density_helper_functions.py:76 | with ground points `(0, 0)` and `(1.5, 1.5)`, the empty cell `[0, 1) x [1, 2)` is stored as written |
| StartupGrid.NonEmptyCellsOnly | app/utils/startup/perspective/transformed_density_helper_functions.py:76-79 | with the emptiness test restored, every stored cell of every position lists a pixel |
| LegacyGrid.Eighth | app/utils/perspective/transformed_density_helper_functions.py:27-32 | `int(size / 8)` is the largest `r` with `8 r <= size` |
| LegacyGrid.SensorRequired | app/utils/perspective/transformed_density_helper_functions.py:17-19 | a camera without a sensor size makes the older gridding raise |
| LegacyGrid.NonEmptyCellsOnly | app/utils/perspective/transformed_density_helper_functions.py:58-70 | every stored cell of every position lists a pixel |
| LegacyGrid.InputSizeGrid | app/utils/model_prediction/make_prediction.py:13 | at the 1920 x 1080 input the older sample grid is also 240 x 135 |
| CameraUtils.ScalingFactor | app/utils/camera_utils.py:49-53 | the factor is 1 at the native input; otherwise it scales the long side, as width > height decides, to the input's width or height, and a zero there fails |
| CameraUtils.Offsets | app/utils/camera_utils.py:56-57 | the offsets centre the scaled image in the model input |
| CameraUtils.MapPolygon | app/utils/camera_utils.py:60-74 | one density vertex per configured edge, in order |
| CameraUtils.MasksWith | app/utils/camera_utils.py:37-74 | no mask unless masking is on and configured; then a factor error comes first, then a short shell raises; otherwise one mask named after the area, with the configuration's interpolation flag and each edge mapped by the factor, in order |
| CameraUtils.CreateMasksForCamera | app/utils/camera_utils.py:37-74 | no mask unless masking is on and configured; then `ZeroDivisionError` when the scaling factor divides by zero, else `ValueError` iff the mapped shell is too short; otherwise one mask named after the area, with the interpolation flag and every edge mapped by the scaling factor, in order |
| CameraUtils.TwoEdgesRaise | app/utils/camera_utils.py:64-72 | a masking configuration of two edges raises `ValueError` whenever the factor is defined |
| CameraUtils.NativeResolution | app/utils/camera_utils.py:49-57 | at 1920 x 1080 a vertex is only divided by 8 and truncated |
| CameraUtils.PortraitInside | app/utils/camera_utils.py:49-74 | a portrait or square image keeps every vertex inside the density map |
| CameraUtils.WideInside | app/utils/camera_utils.py:49-74 | a landscape image at least as wide as 16:9 keeps every vertex inside the density map |
| CameraUtils.NarrowLandscapeOverflows | app/utils/camera_utils.py:49-53 | a landscape image narrower than 16:9 is scaled taller than the input |
| CameraUtils.LandscapeRowOutside | app/utils/camera_utils.py:49-74 | the top-left corner of a 1440 x 1080 image maps to density row -22 |
| CameraUtils.FitFactor | app/utils/model_prediction/make_prediction.py:26-36 | the corrected factor is `resize`'s: positive and at most 1, fitting both sides in the input, and filling one side unless it is 1 |
| CameraUtils.FitKeepsSmall | app/utils/model_prediction/make_prediction.py:28 | the factor is 1 iff the image already fits the input, since `thumbnail` never enlarges |
| CameraUtils.CreateMasksFitted | app/utils/camera_utils.py:37-74 | with the corrected factor: `ZeroDivisionError` for a zero resolution side, else `ValueError` iff the mapped shell is too short; otherwise one mask named after the area, with the interpolation flag and every edge mapped by the corrected factor |
| CameraUtils.FittedInside | app/utils/camera_utils.py:37-74 | with the corrected factor every image keeps its vertices inside the density map |
| CameraUtils.FitAgrees | app/utils/camera_utils.py:49-53 | both factors agree on portrait images at least 1080 high and landscape images at least 16:9 and 1920 wide |
| CameraUtils.SmallImageEnlarged | app/utils/camera_utils.py:49-57 | as written, a 1280 x 720 image is scaled by 1.5 and its top-left corner maps to density pixel (0, 0) |
| CameraUtils.SmallImageCentred | app/utils/model_prediction/make_prediction.py:26-36 | `resize` keeps that image at its size and centres it, so its top-left corner maps to density pixel (40, 22) |
| CameraUtils.CreateInterpolatorForCamera | app/utils/camera_utils.py:106-115 | an interpolator exists iff interpolation is enabled; it has threshold 0 and the radius-5 kernel of exponent 1, in loop order |
| CameraUtils.DensitySize | app/utils/camera_utils.py:168-169 | the density map is 240 x 135, the rounded eighth of the input |
| CameraUtils.CameraTransformer | app/utils/camera_utils.py:180-184 | the camera's transformer keeps the position's focal length |
| CameraUtils.GriddedIndicesForCamera | app/utils/camera_utils.py:144-221 | there is no grid iff an input field is missing; the only failure is a singular system; a grid is the camera's bucketed ground cells |
| CameraUtils.CameraCellsNonEmpty | app/utils/camera_utils.py:215-219 | every stored cell lists a pixel |
| DensityExport.Flatten | app/utils/database_helper_functions.py:113 | `np.array(density).flatten()` holds exactly the values of the map's rows; where each one sits is stated by `FlattenIndex` |
| DensityExport.FlattenIndex | app/utils/database_helper_functions.py:113 | on a rectangular map, flattened index `k` is row `k / w`, column `k % w` |
| DensityExport.SumAt | app/utils/database_helper_functions.py:121 | summing the density at a list of indices fails, with `IndexError`, iff some index is past the flattened map |
| DensityExport.SumAtAppend | app/utils/database_helper_functions.py:121 | the sum over two index lists is the sum of their sums |
| DensityExport.SumAtNonNegative | app/utils/database_helper_functions.py:121 | non-negative densities give non-negative cell totals |
| DensityExport.TransformedDensity | app/utils/database_helper_functions.py:113-122 | one triple per cell, in order, holding the cell centre and the density total of its pixels; it fails iff some cell lists an index past the map |
| DensityExport.SinglePixelCell | app/utils/database_helper_functions.py:113-122 | a cell with the single pixel `k` saves that pixel's value |
| DensityExport.DownsizedSize | app/utils/database_helper_functions.py:79-85 | a landscape image becomes 1280 wide and any other 720 high; a zero long side divides by zero |
| DensityExport.LandscapeSize | app/utils/database_helper_functions.py:79-82 | the height of a landscape image follows its aspect ratio to within one pixel |
| DensityExport.PortraitSize | app/utils/database_helper_functions.py:83-85 | the width of a portrait or square image follows its aspect ratio to within one pixel |
| DensityExport.HeatLevel | app/utils/database_helper_functions.py:62-66 | a non-negative density gives a level from 0 to 255, and a density of 1 or more gives 255 |
| DensityExport.HeatLevelScales | app/utils/database_helper_functions.py:62-66 | between 0 and 1 the level is `255 v` rounded down |
| DensityExport.HeatLevelMonotone | app/utils/database_helper_functions.py:62-66 | a larger density never gives a lower level |
| DensityExport.HeatLevels | app/utils/database_helper_functions.py:61-66 | the level map has the density map's shape, with each pixel's level |
| ProjectConfig.FileName | app/models/project.py:8-10 | each counting model names one of the two weight files |
| ProjectConfig.ToTime | app/models/project.py:18-20 | `time(...)` succeeds iff hour, minute and second are in range, and keeps the fields |
| ProjectConfig.FromClock | app/models/project.py:18-20 | a seconds count is a valid time whose fields give it back |
| ProjectConfig.ToTimeKeepsOrder | app/models/project.py:18-20 | comparing times field by field agrees with comparing their seconds counts |
| Schedules.ActiveAt | app/models/project.py:35-40 | a schedule is active exactly on its arc of the day, wrapping through midnight when start is after end, both ends included |
| Schedules.IsActive | app/models/project.py:30-40 | `is_active` fails iff a time field is out of range, and otherwise says whether the time lies on the arc |
| Schedules.OverlapAsWrittenSymmetric | app/models/project.py:75-95 | the validator's overlap test does not depend on the order of the pair |
| Schedules.OverlapAsWrittenIsSound | app/models/project.py:75-95 | every overlap the validator reports is a real one |
| Schedules.OverlapAsWrittenExactWithinDay | app/models/project.py:75-78 | for two schedules that do not cross midnight, the test is exact |
| Schedules.MixedCaseMissed | app/models/project.py:80-90 | 22:00-02:00 and 01:00-03:00 are both active at 01:30, yet the test reports no overlap |
| Schedules.OverlapExactIff | app/models/project.py:75-95 | the corrected test reports an overlap iff some instant lies on both arcs |
| Schedules.ValidateWith | app/models/project.py:52-102 | the pair loop passes iff no pair clashes, and otherwise reports the first clashing pair |
| Schedules.ValidateCamera | app/models/project.py:52-102 | the validator returns the camera unchanged iff no pair clashes under the test as written |
| Schedules.ValidateCameraExact | app/models/project.py:52-102 | the corrected validator returns the camera unchanged iff no pair clashes under the complete test |
| Schedules.ValidateCameraExactIff | app/models/project.py:52-102 | the corrected validator passes iff every pair of schedules has valid times and is never active at once |
| Schedules.NeverBothActive | app/models/project.py:52-102 | after the corrected validator, no two schedules are active at the same time |
| Schedules.FirstActive | app/models/project.py:104-116 | the scan finds the first active schedule in list order; it fails iff a schedule it reaches has a bad time |
| Schedules.GetActiveModel | app/models/project.py:104-116 | the camera runs the model of its first active schedule, or its default model |
| Schedules.ActiveModelIsUnique | app/models/project.py:104-116 | after the corrected validator, the active model is that of any active schedule |
| Schedules.OrderDecides | app/models/project.py:80-116 | the validator accepts 22:00-02:00 and 01:00-03:00 in both orders, and the model at 01:30 then depends on their order |
| Schedules.DetermineModel | app/models/models.py:37-53 | the light-show model is chosen iff the time lies strictly inside the arc |
| CameraService.FindCamera | app/services/camera_service.py:21-25 | the scan finds the first camera with the id, or none iff no camera has it |
| CameraService.GetCamera | app/services/camera_service.py:15-25 | a camera is found iff the project exists and has a camera with the id, and it is the first such |
| CameraService.FindInAreas | app/services/camera_service.py:35-41 | the scan finds the first matching configuration, area by area, or none iff no area has one |
| CameraService.GetCameraConfig | app/services/camera_service.py:27-43 | a configuration is found iff some area of the project has a match, and it is the first match with its area |
| CameraService.GetActiveModelAsWritten | app/services/camera_service.py:45-53 | an unknown camera or project raises `AttributeError`; otherwise the camera's active model |
| CameraService.GetActiveModelFallback | app/services/camera_service.py:45-53 | the corrected lookup falls back to the default model for an unknown camera |
| CameraService.MissingCameraRaises | app/services/camera_service.py:50-51 | an unknown camera raises as written, and the corrected lookup gives the default model |
| ProjectCheck.HeaderFlaws | app/services/project_service.py:64-71 | a project is flagged for its id, name or camera list iff that field is empty |
| ProjectCheck.IncompletePerspectiveMeaning | app/services/project_service.py:81-89 | a camera is flagged iff it has exactly one of sensor size and 3-D coordinates |
| ProjectCheck.PerspectiveFlawMeaning | app/services/project_service.py:113-135 | a position is flagged iff one of its configurations lacks a perspective field on a camera that has a perspective setup |
| ProjectCheck.ConfigFlawMeaning | app/services/project_service.py:102-153 | a configuration is flagged for a missing position name, masking without a configuration, or fewer than three edges exactly when that holds |
| ProjectCheck.ConfigFlawIn | app/services/project_service.py:102-153 | a configuration flaw is reported iff some configuration of some area yields it |
| ProjectCheck.ProjectMember | app/services/project_service.py:54-153 | a project's flaws are its own field flaws, its camera flaws and its configuration flaws |
| ProjectCheck.Flagged | app/services/project_service.py:155-157 | exactly the projects with a flaw are listed, each with its flaw list |
| ProjectCheck.FlaggedKey | app/services/project_service.py:155-157 | an id is listed iff a project with that id has a flaw |
| ProjectCheck.ReportValues | app/services/project_service.py:155-157 | each listed id holds the flaw list of the last flawed project with that id, since a later assignment overwrites |
| ProjectCheck.CheckProjects | app/services/project_service.py:54-162 | a failed load gives the error; otherwise the report has exactly the ids of the flawed projects, each with its flaws |
| SaveFlag.ParseSaveFlag | app/api/endpoints/predictions.py:22-30 | every refused value gets the same status-500 error |
| SaveFlag.ParseSaveFlagCases | app/api/endpoints/predictions.py:22-30 | the flag is true for "true" in any letter case or "1", false for "false" in any letter case or "0", and an error otherwise |
| SaveFlag.LowerIsSpells | app/api/endpoints/predictions.py:22-24 | lower-casing gives a lower-case word iff the string spells it in some mix of letter cases |
| SaveFlag.CaseDoesNotMatter | app/api/endpoints/predictions.py:22-30 | strings that differ only in letter case parse alike |
| SaveFlag.DefaultSaves | app/api/endpoints/predictions.py:16 | the default value saves, and so does "TRUE" |

## Left out

- Floating point: every value is an exact real. NumPy's rounding errors, infinities and NaN are not modelled.
- Perspective.SolverSystem: a zero focal length is an error here. With NumPy scalars the source would divide into infinities instead, which is floating-point behaviour.
- The rotation setup of the perspective transformer (normalising, cross product, `arccos`) is the `Orientation` parameter. `Perspective.New` states only that the translation sends the camera to the origin.
- Shapely's `covers` is the `CoverFn` parameter. Of polygon construction only the ring-length rule of `Polygon` is modelled (`Masks.MakePolygon`); a self-intersecting shell is accepted, as Shapely accepts it.
- The weight `1 / distance^p` is the `WeightFn` parameter; only its positivity is assumed.
- Parallel execution with joblib: rows are computed in order, which gives the same result.
- The density model, image decoding and resizing, the colour map and JPEG encoding: these are the density model's inputs and the exports' outputs, not logic of the core.
- Blob storage, the Cosmos database and the web framework: this is I/O. The results they would store are the values the model returns.
- `app/routes/check_database.py` is a maintenance route outside the core.
- `app/utils/predict/predict_helper_functions.py` is not part of this model. The `max_width` and `max_height` the older gridding imports from it are parameters of `LegacyGrid`.
- LegacyGrid.GriddedIndices: the older gridding imports `app.utils.perspective.perspective_transformer`, which is not part of this model; it is taken to behave like the startup `PerspectiveTransformer` (`Perspective`), with the same constructor arguments.
- CameraUtils.CreateInterpolatorForCamera: it imports `app.utils.startup.selective_idw_interpolator`, which is not part of this model; it is taken to be the interpolator of `app/utils/interpolation/selective_idw_interpolator.py` (`SelectiveIdw`).
- Mask type checks in `Mask.__init__` hold by typing, and are not modelled.
- The check for a missing camera resolution: a typed pair is always present. The length checks on `sensor_size` and `coordinates_3d` are likewise enforced by their types.
- Missing keys in the camera metadata dictionaries are typed as present, except `sensor_size`, which is an `Option`.
- Ragged density maps: the interpolators read them as the source does; `IdwPrime` models the resulting `IndexError`.
- DensityExport.Flatten: on a ragged map it concatenates the rows, where NumPy raises or builds an array of row objects; the density model only produces 240 x 135 maps, and the lemmas about `Flatten` assume a rectangular one.
- CameraUtils.FitFactor: the factor is exact, while `thumbnail` rounds the resized image to whole pixels and `resize` centres it with integer division, so the pasted image can sit up to a pixel away from the modelled one.
- DensityExport.HeatLevel: a negative density's `uint8` cast is left to the platform, so the model gives `None` there.
- SaveFlag.Lower: only ASCII letters are lower-cased. Of the other characters Python lower-cases, only the Kelvin sign and the dotted capital I land in ASCII, and neither spells a letter of "true" or "false".
- Microseconds of times of day: schedule times have whole-second resolution.
- ProjectCheck.CheckProjects: of the exceptions a load can raise, only the load failure is modelled.
- `np.where` returns a tuple of arrays; the model uses the index list it holds.

## Findings

| source | as written | input that shows it | evidently intended | confidence | as-written member | corrected member |
|---|---|---|---|---|---|---|
| app/utils/interpolation/selective_idw_interpolator.py:112-115 | the mean is raised to the last neighbour value read, not to the pixel's own value | pixel `(1, 0)` of `[[1, 0, 10]]`, radius 1, threshold 0, becomes 10 | a weighted mean of the accepted neighbours, never below the pixel | not executed | SelectiveIdwExamples.LastReadWins | SelectiveIdw.IntendedPoint |
| app/utils/interpolation/selective_idw_interpolator.py:97-100 | a negative neighbour index wraps to the far end of the row or map instead of raising | pixel `(0, 0)` of `[[0, 0, 9]]`, radius 1, threshold 0, reads the 9 and becomes 9 | neighbours outside the map are skipped | not executed | SelectiveIdwExamples.LeftEdgeWraps | SelectiveIdw.IntendedPoint |
| utils/idw_prime_interpolator.py:99 | with no accepted neighbour, the pixel takes the last value read, which is 0 | pixel `(0, 0)` of `[[c, 0]]` with `c` at or below the threshold becomes 0 | the pixel keeps its own value | not executed | IdwPrimeExamples.NoNeighbourDropsPixel | SelectiveIdw.IntendedPoint |
| utils/idw_prime_interpolator.py:99 | with no neighbour in the frame, `density_value` is never bound and the call raises `UnboundLocalError` | a qualifying pixel in the single-pixel map `[[v]]` | the pixel keeps its own value | not executed | IdwPrime.SinglePixelRaises | SelectiveIdw.IntendedPoint |
| app/models/project.py:80-84 | the overlap test misses a pair where one schedule crosses midnight and the other holds its end | 22:00-02:00 and 01:00-03:00 pass, yet both are active at 01:30 | any two schedules active at the same instant are refused | not executed | Schedules.MixedCaseMissed | Schedules.ValidateCameraExactIff |
| app/utils/startup/perspective/transformed_density_helper_functions.py:76 | `len(indices) > 0` tests the tuple returned by `np.where`, which always has length 1, so empty cells are stored | ground points `(0, 0)` and `(1.5, 1.5)` store the empty cell `[0, 1) x [1, 2)` | only cells holding a pixel are stored, as in the other two gridding functions | not executed | StartupGrid.EmptyCellStored | StartupGrid.NonEmptyCellsOnly |
| app/services/camera_service.py:50-51 | the fallback `CountingModel.STANDARD` does not exist in the enum, so an unknown camera raises `AttributeError` | any camera id not in the project | the default counting model is returned | not executed | CameraService.MissingCameraRaises | CameraService.GetActiveModelFallback |
| app/utils/camera_utils.py:49-53 | a landscape image is scaled to the full input width even when that makes it taller than the input | a 1440 x 1080 image maps its top-left corner to density row -22 | the image is scaled as `resize` scales it: shrunk to fit inside the input, never enlarged | not executed | CameraUtils.LandscapeRowOutside | CameraUtils.FittedInside |
| app/utils/camera_utils.py:49-53 | an image smaller than the input is scaled up to the input, but `resize` keeps it at its size and centres it | a 1280 x 720 image maps its top-left corner to density pixel (0, 0); `resize` pastes it at (320, 180), density pixel (40, 22) | the factor `resize` uses, which is 1 for an image that fits | not executed | CameraUtils.SmallImageEnlarged | CameraUtils.SmallImageCentred |
