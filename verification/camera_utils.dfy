/** Per-camera resources built from a project configuration: the counting
    mask of an area in density-map pixels, the interpolator, and the ground
    grid of a camera at a position. */
module CameraUtils {
  import opened Results
  import opened PyNum
  import opened PyDict
  import opened Masks
  import opened ProjectConfig
  import opened ProximityKernel
  import opened GroundGrid
  import opened Gridding
  import RegionCount
  import SelectiveIdw
  import Perspective

  /** The density map is one eighth of the model input on each axis. */
  const Downscale: real := 0.125

  const InputWidth: real := RegionCount.FixedWidth as real
  const InputHeight: real := RegionCount.FixedHeight as real

  /** A camera resolution with a zero on the side the factor divides by,
      or a shell Shapely cannot close into a ring. */
  datatype MaskError = ZeroDivision | Shape(e: ShapeError)

  /** The scaling factor of `create_masks_for_camera`: 1 at the native input
      size; otherwise the long side, as the comparison of width and height
      decides it, is scaled onto the input's width or height. */
  function ScalingFactor(width: int, height: int): (r: Result<real, MaskError>)
    ensures (width, height) == (1920, 1080) ==> r == Ok(1.0)
    ensures (width, height) != (1920, 1080) ==>
      (r.Err? <==> (if width > height then width == 0 else height == 0))
    ensures (width, height) != (1920, 1080) && r.Ok? && width > height ==> r.value * width as real == InputWidth
    ensures (width, height) != (1920, 1080) && r.Ok? && width <= height ==> r.value * height as real == InputHeight
  {
    if width != RegionCount.FixedWidth || height != RegionCount.FixedHeight then
      if width > height then
        if width == 0 then Err(ZeroDivision) else Ok(InputWidth / width as real)
      else
        if height == 0 then Err(ZeroDivision) else Ok(InputHeight / height as real)
    else Ok(1.0)
  }

  /** The offsets that centre an image scaled by `s` in the model input. */
  function Offsets(s: real, width: int, height: int): (o: (real, real))
    ensures 2.0 * o.0 + s * width as real == InputWidth
    ensures 2.0 * o.1 + s * height as real == InputHeight
  {
    (0.5 * (InputWidth - s * width as real), 0.5 * (InputHeight - s * height as real))
  }

  /** The density-map pixel of a camera pixel: scaled, shifted by the
      offsets, downscaled, and truncated toward zero by `int()`. */
  function MapVertex(s: real, width: int, height: int, c: (int, int)): Vertex {
    var o := Offsets(s, width, height);
    (Trunc(Downscale * (s * c.0 as real + o.0)), Trunc(Downscale * (s * c.1 as real + o.1)))
  }

  /** The polygon of a masking configuration, vertex by vertex in input order. */
  function MapPolygon(s: real, width: int, height: int, edges: seq<(int, int)>): (p: Polygon)
    ensures |p| == |edges|
    ensures forall i :: 0 <= i < |edges| ==> p[i] == MapVertex(s, width, height, edges[i])
  {
    seq(|edges|, i requires 0 <= i < |edges| => MapVertex(s, width, height, edges[i]))
  }

  /** Masking is switched on and configured (a configuration object is
      always truthy). */
  predicate MaskingOn(cfg: CameraConfig) {
    cfg.enableMasking && cfg.maskingConfig.Some?
  }

  /** `create_masks_for_camera` with a scaling factor: no mask without
      masking; else the factor is computed first, then the one mask named
      after the area is built. */
  function MasksWith(factor: Result<real, MaskError>, camera: Camera, cfg: CameraConfig, areaId: string): (r: Result<seq<Mask>, MaskError>)
    ensures !MaskingOn(cfg) ==> r == Ok([])
    ensures MaskingOn(cfg) && factor.Err? ==> r == Err(factor.error)
    ensures MaskingOn(cfg) && factor.Ok? ==>
      (r.Err? <==> ShortShell(MapPolygon(factor.value, camera.resolution.0, camera.resolution.1, cfg.maskingConfig.value.edges)))
    ensures MaskingOn(cfg) && r.Ok? ==> (|r.value| == 1
      && r.value[0].name == areaId
      && r.value[0].interpolate == cfg.enableInterpolation
      && r.value[0].polygon == MapPolygon(factor.value, camera.resolution.0, camera.resolution.1, cfg.maskingConfig.value.edges))
  {
    if !MaskingOn(cfg) then Ok([])
    else
      match factor
      case Err(e) => Err(e)
      case Ok(s) =>
        match MakePolygon(MapPolygon(s, camera.resolution.0, camera.resolution.1, cfg.maskingConfig.value.edges))
        case Err(e) => Err(Shape(e))
        case Ok(p) => Ok([Mask(areaId, p, cfg.enableInterpolation)])
  }

  /** `create_masks_for_camera` as written. */
  function CreateMasksForCamera(camera: Camera, cfg: CameraConfig, areaId: string): (r: Result<seq<Mask>, MaskError>)
    ensures r == Ok([]) <==> !MaskingOn(cfg)
    ensures MaskingOn(cfg) && ScalingFactor(camera.resolution.0, camera.resolution.1).Err? ==> r == Err(ZeroDivision)
    ensures MaskingOn(cfg) && ScalingFactor(camera.resolution.0, camera.resolution.1).Ok? ==>
      (r.Err? <==> ShortShell(MapPolygon(ScalingFactor(camera.resolution.0, camera.resolution.1).value,
                                         camera.resolution.0, camera.resolution.1, cfg.maskingConfig.value.edges)))
    ensures r.Ok? && MaskingOn(cfg) ==> (|r.value| == 1 && r.value[0].name == areaId
      && r.value[0].interpolate == cfg.enableInterpolation
      && r.value[0].polygon == MapPolygon(ScalingFactor(camera.resolution.0, camera.resolution.1).value,
                                          camera.resolution.0, camera.resolution.1, cfg.maskingConfig.value.edges))
  {
    MasksWith(ScalingFactor(camera.resolution.0, camera.resolution.1), camera, cfg, areaId)
  }

  /** Two edges are not a polygon: a camera whose factor is defined raises. */
  lemma TwoEdgesRaise(camera: Camera, cfg: CameraConfig, areaId: string)
    requires MaskingOn(cfg) && |cfg.maskingConfig.value.edges| == 2
    requires ScalingFactor(camera.resolution.0, camera.resolution.1).Ok?
    ensures CreateMasksForCamera(camera, cfg, areaId) == Err(Shape(TooFewCoordinates))
  {
  }

  /** At the native input size a vertex is only downscaled: column `c` goes
      to `c / 8` rounded toward zero. */
  lemma NativeResolution(c: (int, int))
    ensures MapVertex(ScalingFactor(1920, 1080).value, 1920, 1080, c) == (Trunc(c.0 as real / 8.0), Trunc(c.1 as real / 8.0))
  {
    var o := Offsets(1.0, 1920, 1080);
    assert o == (0.0, 0.0);
  }

  lemma MulLeft(s: real, a: real, b: real)
    requires s >= 0.0 && a <= b
    ensures s * a <= s * b
  {
  }

  lemma CancelRight(a: real, b: real, c: real)
    requires c > 0.0 && a * c <= b * c
    ensures a <= b
  {
  }

  /** One coordinate: a pixel of an image side of `n` pixels, scaled to at
      most `size`, centred and downscaled, lies within `[0, size / 8]`. */
  lemma CoordinateInside(s: real, n: int, c: int, size: real)
    requires s >= 0.0 && s * n as real <= size && 0 <= c <= n
    ensures 0.0 <= Downscale * (s * c as real + 0.5 * (size - s * n as real)) <= Downscale * size
  {
    MulLeft(s, c as real, n as real);
    MulLeft(s, 0.0, c as real);
    var x := s * c as real + 0.5 * (size - s * n as real);
    assert 0.0 <= x <= size;
  }

  /** A camera pixel inside the image lands inside the density map whenever
      the scaled image fits the model input. */
  lemma MapInside(s: real, width: int, height: int, c: (int, int))
    requires s >= 0.0 && s * width as real <= InputWidth && s * height as real <= InputHeight
    requires 0 <= c.0 <= width && 0 <= c.1 <= height
    ensures var v := MapVertex(s, width, height, c); 0 <= v.0 <= 240 && 0 <= v.1 <= 135
  {
    CoordinateInside(s, width, c.0, InputWidth);
    CoordinateInside(s, height, c.1, InputHeight);
  }

  /** A portrait or square image keeps its pixels inside the density map. */
  lemma PortraitInside(width: int, height: int, c: (int, int))
    requires 0 < width <= height && 0 <= c.0 <= width && 0 <= c.1 <= height
    ensures ScalingFactor(width, height).Ok?
    ensures var v := MapVertex(ScalingFactor(width, height).value, width, height, c); 0 <= v.0 <= 240 && 0 <= v.1 <= 135
  {
    var s := ScalingFactor(width, height).value;
    assert s * height as real == InputHeight;
    PortraitFits(s, width as real, height as real);
    MapInside(s, width, height, c);
  }

  /** Scaled onto the input height, a side no longer than the height fits
      the input width. */
  lemma PortraitFits(s: real, w: real, h: real)
    requires 0.0 < w <= h && s * h == InputHeight
    ensures s >= 0.0 && s * w <= InputWidth
  {
    MulLeft(s, w, h);
  }

  /** `s * height` with `s = 1920 / width` stays within the input height
      exactly when the image is at least as wide as 16:9. */
  lemma WideHeight(width: int, height: int)
    requires width > height > 0
    ensures (InputWidth / width as real) * height as real <= InputHeight <==> 9 * width >= 16 * height
  {
    var s := InputWidth / width as real;
    assert s * width as real == 1920.0;
    assert s * height as real * width as real == 1920.0 * height as real;
    if 9 * width >= 16 * height {
      assert 1920.0 * height as real <= 1080.0 * width as real;
      assert s * height as real <= InputHeight;
    } else {
      assert 1920.0 * height as real > 1080.0 * width as real;
      assert s * height as real > InputHeight;
    }
  }

  /** A landscape image at least as wide as 16:9 keeps its pixels inside the
      density map. */
  lemma WideInside(width: int, height: int, c: (int, int))
    requires width > height > 0 && 9 * width >= 16 * height
    requires 0 <= c.0 <= width && 0 <= c.1 <= height
    ensures ScalingFactor(width, height).Ok?
    ensures var v := MapVertex(ScalingFactor(width, height).value, width, height, c); 0 <= v.0 <= 240 && 0 <= v.1 <= 135
  {
    var s := ScalingFactor(width, height).value;
    if (width, height) != (1920, 1080) {
      assert s == InputWidth / width as real;
      WideHeight(width, height);
    }
    MapInside(s, width, height, c);
  }

  /** A landscape image narrower than 16:9 is scaled taller than the model
      input, although `resize` fits it by its height. */
  lemma NarrowLandscapeOverflows(width: int, height: int)
    requires width > height > 0 && 9 * width < 16 * height
    ensures ScalingFactor(width, height).value * height as real > InputHeight
  {
    WideHeight(width, height);
  }

  /** A 4:3 image: its top-left corner is mapped 22 rows above the density
      map. */
  lemma LandscapeRowOutside()
    ensures MapVertex(ScalingFactor(1440, 1080).value, 1440, 1080, (0, 0)) == (0, -22)
  {
    var s := ScalingFactor(1440, 1080).value;
    assert s * 1440.0 == 1920.0;
    assert s * 1080.0 == 1440.0;
    var o := Offsets(s, 1440, 1080);
    assert o == (0.0, -180.0);
    assert Downscale * (s * 0.0 + o.1) == -22.5;
  }

  /** The factor `resize` scales an image by: `thumbnail` shrinks it to the
      largest size that fits both sides into the model input, and never
      enlarges it. */
  function FitFactor(width: int, height: int): (r: Result<real, MaskError>)
    ensures r.Err? <==> width == 0 || height == 0
    ensures r.Ok? && width > 0 && height > 0 ==> (0.0 < r.value <= 1.0
      && r.value * width as real <= InputWidth && r.value * height as real <= InputHeight
      && (r.value == 1.0 || r.value * width as real == InputWidth || r.value * height as real == InputHeight))
  {
    if width == 0 || height == 0 then Err(ZeroDivision)
    else
      var sw := InputWidth / width as real;
      var sh := InputHeight / height as real;
      var s := Min(1.0, Min(sw, sh));
      if width > 0 && height > 0 then
        assert sw * width as real == InputWidth && sh * height as real == InputHeight;
        MulLeft(width as real, s, sw);
        MulLeft(height as real, s, sh);
        assert s == 1.0 || s == sw || s == sh;
        Ok(s)
      else Ok(s)
  }

  /** An image that already fits the input keeps its size under `resize`. */
  lemma {:induction false} FitKeepsSmall(width: int, height: int)
    requires 0 < width && 0 < height
    ensures FitFactor(width, height).Ok?
    ensures FitFactor(width, height).value == 1.0 <==> width as real <= InputWidth && height as real <= InputHeight
  {
    var w, h := width as real, height as real;
    if w <= InputWidth && h <= InputHeight {
      var sw, sh := InputWidth / w, InputHeight / h;
      assert sw * w == InputWidth && sh * h == InputHeight;
      assert 1.0 * w == w <= InputWidth == sw * w;
      CancelRight(1.0, sw, w);
      assert 1.0 * h == h <= InputHeight == sh * h;
      CancelRight(1.0, sh, h);
    }
  }

  /** `create_masks_for_camera` with the fitting factor. */
  function CreateMasksFitted(camera: Camera, cfg: CameraConfig, areaId: string): (r: Result<seq<Mask>, MaskError>)
    ensures r == Ok([]) <==> !MaskingOn(cfg)
    ensures MaskingOn(cfg) && (camera.resolution.0 == 0 || camera.resolution.1 == 0) ==> r == Err(ZeroDivision)
    ensures MaskingOn(cfg) && FitFactor(camera.resolution.0, camera.resolution.1).Ok? ==>
      (r.Err? <==> ShortShell(MapPolygon(FitFactor(camera.resolution.0, camera.resolution.1).value,
                                         camera.resolution.0, camera.resolution.1, cfg.maskingConfig.value.edges)))
    ensures r.Ok? && MaskingOn(cfg) ==> (|r.value| == 1 && r.value[0].name == areaId
      && r.value[0].interpolate == cfg.enableInterpolation
      && r.value[0].polygon == MapPolygon(FitFactor(camera.resolution.0, camera.resolution.1).value,
                                          camera.resolution.0, camera.resolution.1, cfg.maskingConfig.value.edges))
  {
    MasksWith(FitFactor(camera.resolution.0, camera.resolution.1), camera, cfg, areaId)
  }

  /** With the fitting factor every pixel of every image lands inside the
      density map. */
  lemma FittedInside(width: int, height: int, c: (int, int))
    requires width > 0 && height > 0 && 0 <= c.0 <= width && 0 <= c.1 <= height
    ensures var v := MapVertex(FitFactor(width, height).value, width, height, c); 0 <= v.0 <= 240 && 0 <= v.1 <= 135
  {
    MapInside(FitFactor(width, height).value, width, height, c);
  }

  /** The two factors agree on images `resize` shrinks or keeps, except on
      landscape images narrower than 16:9. */
  lemma FitAgrees(width: int, height: int)
    requires (0 < width <= height && height as real >= InputHeight)
          || (width > height > 0 && 9 * width >= 16 * height && width as real >= InputWidth)
    ensures ScalingFactor(width, height) == FitFactor(width, height)
  {
    var w, h := width as real, height as real;
    var sw, sh := InputWidth / w, InputHeight / h;
    assert sw * w == InputWidth && sh * h == InputHeight;
    if (width, height) == (1920, 1080) {
      assert sw == 1.0 && sh == 1.0;
    } else if width > height {
      WideHeight(width, height);
      assert sw * h <= sh * h;
      CancelRight(sw, sh, h);
      assert sw * w <= 1.0 * w;
      CancelRight(sw, 1.0, w);
    } else {
      PortraitFactors(sw, sh, w, h);
    }
  }

  /** For a portrait image at least as high as the input, the height factor
      is the smaller one and does not enlarge. */
  lemma PortraitFactors(sw: real, sh: real, w: real, h: real)
    requires 0.0 < w <= h && InputHeight <= h
    requires sw * w == InputWidth && sh * h == InputHeight
    ensures sh <= sw && sh <= 1.0
  {
    assert sh > 0.0;
    MulLeft(sh, w, h);
    assert sh * w <= sw * w;
    CancelRight(sh, sw, w);
    assert sh * h <= 1.0 * h;
    CancelRight(sh, 1.0, h);
  }

  /** A 1280 x 720 image as written: scaled by 1.5, so its top-left corner
      goes to density pixel (0, 0). */
  lemma SmallImageEnlarged()
    ensures ScalingFactor(1280, 720) == Ok(1.5)
    ensures MapVertex(ScalingFactor(1280, 720).value, 1280, 720, (0, 0)) == (0, 0)
  {
    var o := Offsets(1.5, 1280, 720);
    assert o == (0.0, 0.0);
  }

  /** The same image with the fitting factor: kept at its size and centred
      at (320, 180), as `resize` pastes it, so its top-left corner goes to
      density pixel (40, 22). */
  lemma SmallImageCentred()
    ensures FitFactor(1280, 720) == Ok(1.0)
    ensures MapVertex(FitFactor(1280, 720).value, 1280, 720, (0, 0)) == (40, 22)
  {
    FitKeepsSmall(1280, 720);
    var o := Offsets(1.0, 1280, 720);
    assert o == (320.0, 180.0);
    assert Downscale * (1.0 * 0.0 + o.1) == 22.5;
  }

  /** `create_interpolator_for_camera`: none without interpolation, else the
      fixed settings radius 5, exponent 1 and threshold 0. */
  function CreateInterpolatorForCamera(cfg: CameraConfig, weight: WeightFn): (r: Option<SelectiveIdw.Sidw>)
    ensures r.None? <==> !cfg.enableInterpolation
    ensures r.Some? ==> r.value.threshold == 0.0
    ensures r.Some? ==> forall e :: e in r.value.kernel <==> InKernel(e.offset, 5) && e.weight == weight(1.0, e.offset)
    ensures r.Some? ==> StrictlyOrdered(r.value.kernel)
  {
    if !cfg.enableInterpolation then None
    else Some(SelectiveIdw.New(5, 1.0, 0.0, weight).value)
  }

  /** The density map's size: one eighth of the model input, rounded. */
  const DensityWidth: nat := 240
  const DensityHeight: nat := 135

  lemma DensitySize()
    ensures DensityWidth == Round(Downscale * InputWidth) && DensityHeight == Round(Downscale * InputHeight)
  {
    RoundIsUnique(Downscale * InputWidth, 240);
    RoundIsUnique(Downscale * InputHeight, 135);
  }

  /** The guard of `calculate_gridded_indices_for_camera`: every field the
      transformer needs is present, and the focal length is not zero. */
  predicate GriddingInputs(camera: Camera, position: Position) {
    camera.sensorSize.Some? && camera.coordinates3d.Some? && position.centerGroundPlane.Some?
    && position.focalLength.Some? && position.focalLength.value != 0.0
  }

  /** The transformer of a camera at a position. */
  function CameraTransformer(camera: Camera, position: Position, orient: Perspective.Orientation): (t: Perspective.Transformer)
    requires GriddingInputs(camera, position)
    ensures t.focal == position.focalLength.value
  {
    var c := camera.coordinates3d.value;
    Perspective.New(position.focalLength.value, [c.0, c.1, c.2], position.centerGroundPlane.value, orient).value
  }

  /** `calculate_gridded_indices_for_camera`: nothing when an input is
      missing; else the non-empty cells of the 240 x 135 sample grid. */
  function GriddedIndicesForCamera(camera: Camera, position: Position, orient: Perspective.Orientation): (r: Result<Option<Cells>, GridError>)
    ensures r == Ok(None) <==> !GriddingInputs(camera, position)
    ensures r.Err? ==> r.error == Transform(Perspective.Singular)
    ensures r.Ok? && r.value.Some? ==>
      var t := CameraTransformer(camera, position, orient);
      GroundCells(t, camera.sensorSize.value, DensityWidth, DensityHeight, false) == Ok(r.value.value)
  {
    if !GriddingInputs(camera, position) then Ok(None)
    else
      var t := CameraTransformer(camera, position, orient);
      match GroundCells(t, camera.sensorSize.value, DensityWidth, DensityHeight, false)
      case Err(e) =>
        assert e != NoSamples;
        Err(e)
      case Ok(cells) => Ok(Some(cells))
  }

  /** Every cell the camera grid stores lists at least one pixel. */
  lemma CameraCellsNonEmpty(camera: Camera, position: Position, orient: Perspective.Orientation, key: (real, real))
    requires GriddedIndicesForCamera(camera, position, orient).Ok?
    requires GriddedIndicesForCamera(camera, position, orient).value.Some?
    requires key in KeySet(GriddedIndicesForCamera(camera, position, orient).value.value)
    ensures Get(GriddedIndicesForCamera(camera, position, orient).value.value, key).value != []
  {
    GroundCellsNonEmpty(CameraTransformer(camera, position, orient), camera.sensorSize.value, DensityWidth, DensityHeight, key);
  }
}
