/** `PerspectiveTransformer`: maps a point of the camera's sensor plane to the
    ground plane y = 0 of the outside world, through a rotation given by
    Rodrigues' formula and a translation that puts the camera at the origin.
    Vectors and matrices are exact reals. The direction of the rotation axis
    and the angle come from a normalisation, a cross product and an arccos,
    which this model takes as a parameter `Orientation`. */
module Perspective {
  import opened Results

  type Vec3 = (real, real, real)

  /** A 3x3 matrix by rows. */
  datatype Mat3 = Mat3(r0: Vec3, r1: Vec3, r2: Vec3)

  function Dot(a: Vec3, b: Vec3): real {
    a.0 * b.0 + a.1 * b.1 + a.2 * b.2
  }

  function Add(a: Vec3, b: Vec3): Vec3 {
    (a.0 + b.0, a.1 + b.1, a.2 + b.2)
  }

  function Scale(k: real, a: Vec3): Vec3 {
    (k * a.0, k * a.1, k * a.2)
  }

  function Neg(a: Vec3): Vec3 {
    (-a.0, -a.1, -a.2)
  }

  const Zero: Vec3 := (0.0, 0.0, 0.0)

  /** The cross product `a x b`. */
  function Cross(a: Vec3, b: Vec3): Vec3 {
    (a.1 * b.2 - a.2 * b.1, a.2 * b.0 - a.0 * b.2, a.0 * b.1 - a.1 * b.0)
  }

  /** The matrix-vector product `m @ v`. */
  function Apply(m: Mat3, v: Vec3): Vec3 {
    (Dot(m.r0, v), Dot(m.r1, v), Dot(m.r2, v))
  }

  function Transpose(m: Mat3): Mat3 {
    Mat3((m.r0.0, m.r1.0, m.r2.0), (m.r0.1, m.r1.1, m.r2.1), (m.r0.2, m.r1.2, m.r2.2))
  }

  function MatAdd(m: Mat3, n: Mat3): Mat3 {
    Mat3(Add(m.r0, n.r0), Add(m.r1, n.r1), Add(m.r2, n.r2))
  }

  function MatScale(k: real, m: Mat3): Mat3 {
    Mat3(Scale(k, m.r0), Scale(k, m.r1), Scale(k, m.r2))
  }

  /** The matrix product `m @ n`. */
  function MatMul(m: Mat3, n: Mat3): Mat3 {
    var t := Transpose(n);
    Mat3((Dot(m.r0, t.r0), Dot(m.r0, t.r1), Dot(m.r0, t.r2)),
         (Dot(m.r1, t.r0), Dot(m.r1, t.r1), Dot(m.r1, t.r2)),
         (Dot(m.r2, t.r0), Dot(m.r2, t.r1), Dot(m.r2, t.r2)))
  }

  const Identity: Mat3 := Mat3((1.0, 0.0, 0.0), (0.0, 1.0, 0.0), (0.0, 0.0, 1.0))

  /** The cross-product matrix `K` of an axis. */
  function Skew(axis: Vec3): (k: Mat3)
    ensures Transpose(k) == MatScale(-1.0, k)
  {
    Mat3((0.0, -axis.2, axis.1), (axis.2, 0.0, -axis.0), (-axis.1, axis.0, 0.0))
  }

  /** `K @ v` is the cross product of the axis with `v`. */
  lemma SkewIsCross(axis: Vec3, v: Vec3)
    ensures Apply(Skew(axis), v) == Cross(axis, v)
  {
    var k := Skew(axis);
    assert Apply(k, v).0 == Cross(axis, v).0;
    assert Apply(k, v).1 == Cross(axis, v).1;
    assert Apply(k, v).2 == Cross(axis, v).2;
  }

  /** A row of a product against a vector, regrouped. */
  lemma RowProduct(a: Vec3, n: Mat3, v: Vec3)
    ensures Dot((Dot(a, Transpose(n).r0), Dot(a, Transpose(n).r1), Dot(a, Transpose(n).r2)), v) == Dot(a, Apply(n, v))
  {
    var t := Transpose(n);
    assert Dot(a, t.r0) == a.0 * n.r0.0 + a.1 * n.r1.0 + a.2 * n.r2.0;
    assert Dot(a, t.r1) == a.0 * n.r0.1 + a.1 * n.r1.1 + a.2 * n.r2.1;
    assert Dot(a, t.r2) == a.0 * n.r0.2 + a.1 * n.r1.2 + a.2 * n.r2.2;
    Regroup(a.0, a.1, a.2, n.r0.0, n.r0.1, n.r0.2, n.r1.0, n.r1.1, n.r1.2, n.r2.0, n.r2.1, n.r2.2, v.0, v.1, v.2);
  }

  lemma Regroup(a0: real, a1: real, a2: real, n00: real, n01: real, n02: real, n10: real, n11: real, n12: real,
                n20: real, n21: real, n22: real, v0: real, v1: real, v2: real)
    ensures (a0 * n00 + a1 * n10 + a2 * n20) * v0 + (a0 * n01 + a1 * n11 + a2 * n21) * v1 + (a0 * n02 + a1 * n12 + a2 * n22) * v2
      == a0 * (n00 * v0 + n01 * v1 + n02 * v2) + a1 * (n10 * v0 + n11 * v1 + n12 * v2) + a2 * (n20 * v0 + n21 * v1 + n22 * v2)
  {
  }

  /** Multiplying matrices composes their actions. */
  lemma ApplyMatMul(m: Mat3, n: Mat3, v: Vec3)
    ensures Apply(MatMul(m, n), v) == Apply(m, Apply(n, v))
  {
    RowProduct(m.r0, n, v);
    RowProduct(m.r1, n, v);
    RowProduct(m.r2, n, v);
    var l := Apply(MatMul(m, n), v);
    var r := Apply(m, Apply(n, v));
    assert l.0 == r.0 && l.1 == r.1 && l.2 == r.2;
  }

  lemma DotLinear(a: Vec3, b: Vec3, k: real, v: Vec3)
    ensures Dot(Add(a, b), v) == Dot(a, v) + Dot(b, v)
    ensures Dot(Scale(k, a), v) == k * Dot(a, v)
  {
  }

  lemma ApplyLinear(m: Mat3, n: Mat3, k: real, v: Vec3)
    ensures Apply(MatAdd(m, n), v) == Add(Apply(m, v), Apply(n, v))
    ensures Apply(MatScale(k, m), v) == Scale(k, Apply(m, v))
  {
    DotLinear(m.r0, n.r0, k, v);
    DotLinear(m.r1, n.r1, k, v);
    DotLinear(m.r2, n.r2, k, v);
    var l := Apply(MatAdd(m, n), v);
    var r := Add(Apply(m, v), Apply(n, v));
    assert l.0 == r.0 && l.1 == r.1 && l.2 == r.2;
    var l' := Apply(MatScale(k, m), v);
    var r' := Scale(k, Apply(m, v));
    assert l'.0 == r'.0 && l'.1 == r'.1 && l'.2 == r'.2;
  }

  lemma ApplyIdentity(v: Vec3)
    ensures Apply(Identity, v) == v
  {
    var l := Apply(Identity, v);
    assert l.0 == v.0 && l.1 == v.1 && l.2 == v.2;
  }

  lemma ApplyZero(m: Mat3)
    ensures Apply(m, Zero) == Zero
  {
    var l := Apply(m, Zero);
    assert l.0 == 0.0 && l.1 == 0.0 && l.2 == 0.0;
  }

  /** `__calculate_rotation_matrix__`: Rodrigues' formula
      `I + sin(theta) K + (1 - cos(theta)) K @ K`, with the sine and cosine given. */
  function Rodrigues(axis: Vec3, sin: real, cos: real): (r: Mat3)
    ensures Apply(r, axis) == axis
  {
    var k := Skew(axis);
    var r := MatAdd(MatAdd(Identity, MatScale(sin, k)), MatScale(1.0 - cos, MatMul(k, k)));
    assert Apply(r, axis) == axis by {
      SkewIsCross(axis, axis);
      assert Cross(axis, axis) == Zero;
      ApplyMatMul(k, k, axis);
      ApplyZero(k);
      ApplyIdentity(axis);
      ApplyLinear(MatAdd(Identity, MatScale(sin, k)), MatScale(1.0 - cos, MatMul(k, k)), 1.0 - cos, axis);
      ApplyLinear(Identity, MatScale(sin, k), sin, axis);
      ApplyLinear(k, k, sin, axis);
      ApplyLinear(MatMul(k, k), k, 1.0 - cos, axis);
      var a := Add(Add(axis, Scale(sin, Zero)), Scale(1.0 - cos, Zero));
      assert a.0 == axis.0 && a.1 == axis.1 && a.2 == axis.2;
    }
    r
  }

  /** A rotation of angle zero is the identity. */
  lemma RodriguesAtZero(axis: Vec3, v: Vec3)
    ensures Apply(Rodrigues(axis, 0.0, 1.0), v) == v
  {
    var k := Skew(axis);
    var kk := MatMul(k, k);
    var head := MatAdd(Identity, MatScale(0.0, k));
    assert Rodrigues(axis, 0.0, 1.0) == MatAdd(head, MatScale(0.0, kk));
    ApplyLinear(head, MatScale(0.0, kk), 0.0, v);
    ApplyLinear(kk, k, 0.0, v);
    ApplyLinear(Identity, MatScale(0.0, k), 0.0, v);
    ApplyLinear(k, k, 0.0, v);
    ApplyIdentity(v);
    var a := Add(Add(v, Scale(0.0, Apply(k, v))), Scale(0.0, Apply(kk, v)));
    assert a.0 == v.0 && a.1 == v.1 && a.2 == v.2;
  }

  /** The rotation axis, the sine and the cosine of the angle that turn the
      viewing direction from the camera position to the ground centre into
      the camera's own z axis. */
  type Orientation = (Vec3, Vec3) -> (Vec3, real, real)

  /** The transformer's state: focal length, rotation and translation. */
  datatype Transformer = Transformer(focal: real, rot: Mat3, transl: Vec3)

  datatype PerspectiveError = NotThreeD | ZeroFocal | Singular

  /** The ground centre `(cx, cz)` as a point of the ground plane. */
  function Lift(center: (real, real)): (p: Vec3)
    ensures p.1 == 0.0
  {
    (center.0, 0.0, center.1)
  }

  /** The constructor: a camera position that is not three-dimensional is
      refused; otherwise the rotation comes from the orientation, and the
      translation `R @ (-position)` maps the camera position to the origin. */
  function New(focal: real, camPosition: seq<real>, camCenter: (real, real), orient: Orientation): (r: Result<Transformer, PerspectiveError>)
    ensures r.Ok? <==> |camPosition| == 3
    ensures r.Err? ==> r.error == NotThreeD
    ensures r.Ok? ==> r.value.focal == focal
    ensures r.Ok? ==> var pos := (camPosition[0], camPosition[1], camPosition[2]);
      var o := orient(pos, Lift(camCenter));
      r.value.rot == Rodrigues(o.0, o.1, o.2)
    ensures r.Ok? ==> Add(Apply(r.value.rot, (camPosition[0], camPosition[1], camPosition[2])), r.value.transl) == Zero
  {
    if |camPosition| != 3 then Err(NotThreeD)
    else
      var pos := (camPosition[0], camPosition[1], camPosition[2]);
      var o := orient(pos, Lift(camCenter));
      var rot := Rodrigues(o.0, o.1, o.2);
      var t := Apply(rot, Neg(pos));
      assert Add(Apply(rot, pos), t) == Zero by {
        DotLinear(pos, Neg(pos), -1.0, rot.r0);
        var s := Add(Apply(rot, pos), t);
        assert Dot(rot.r0, Neg(pos)) == -Dot(rot.r0, pos);
        assert Dot(rot.r1, Neg(pos)) == -Dot(rot.r1, pos);
        assert Dot(rot.r2, Neg(pos)) == -Dot(rot.r2, pos);
        assert s.0 == 0.0 && s.1 == 0.0 && s.2 == 0.0;
      }
      Ok(Transformer(focal, rot, t))
  }

  /** A 2x2 matrix `[[a, b], [c, d]]`. */
  datatype Mat2 = Mat2(a: real, b: real, c: real, d: real)

  function Apply2(m: Mat2, g: (real, real)): (real, real) {
    (m.a * g.0 + m.b * g.1, m.c * g.0 + m.d * g.1)
  }

  function Det(m: Mat2): real {
    m.a * m.d - m.b * m.c
  }

  /** `__calculate_solver_system__`: `rho` and `tau` for a sensor point
      `(u, v)`; the source divides by the focal length. */
  function SolverSystem(t: Transformer, point: (real, real)): (r: Result<(Mat2, (real, real)), PerspectiveError>)
    ensures r.Err? <==> t.focal == 0.0
    ensures r.Err? ==> r.error == ZeroFocal
  {
    if t.focal == 0.0 then Err(ZeroFocal)
    else
      Ok((Mat2(Row(t.rot.r0, t.rot.r2, point.0 / t.focal).0, Row(t.rot.r0, t.rot.r2, point.0 / t.focal).1,
               Row(t.rot.r1, t.rot.r2, point.1 / t.focal).0, Row(t.rot.r1, t.rot.r2, point.1 / t.focal).1),
          (Rhs(t.transl.0, t.transl.2, point.0 / t.focal), Rhs(t.transl.1, t.transl.2, point.1 / t.focal))))
  }

  /** A row of `rho`: the `x` and `z` entries of camera axis `a` less `u`
      times those of the depth axis `c`. */
  function Row(a: Vec3, c: Vec3, u: real): (real, real) {
    (a.0 - u * c.0, a.2 - u * c.2)
  }

  /** An entry of `tau`. */
  function Rhs(ta: real, tc: real, u: real): real {
    u * tc - ta
  }

  /** The ground point `g = (x, z)` lies on the ray through the sensor point:
      in camera coordinates `q = R @ (x, 0, z) + t`, the sensor point is the
      central projection `(f q0 / q2, f q1 / q2)` read as `q0 = (u/f) q2` and
      `q1 = (v/f) q2`. */
  predicate OnRay(t: Transformer, point: (real, real), g: (real, real))
    requires t.focal != 0.0
  {
    var q := Add(Apply(t.rot, (g.0, 0.0, g.1)), t.transl);
    q.0 == point.0 / t.focal * q.2 && q.1 == point.1 / t.focal * q.2
  }

  /** The solver system states exactly the ray condition. */
  lemma SolverSystemMeaning(t: Transformer, point: (real, real), g: (real, real))
    requires t.focal != 0.0
    ensures var s := SolverSystem(t, point).value; Apply2(s.0, g) == s.1 <==> OnRay(t, point, g)
  {
    SolverRows(t, point, g);
  }

  /** The two rows of the solver system, one camera axis each. */
  lemma SolverRows(t: Transformer, point: (real, real), g: (real, real))
    requires t.focal != 0.0
    ensures var s := SolverSystem(t, point).value; var q := Add(Apply(t.rot, (g.0, 0.0, g.1)), t.transl);
      (Apply2(s.0, g).0 == s.1.0 <==> q.0 == point.0 / t.focal * q.2)
      && (Apply2(s.0, g).1 == s.1.1 <==> q.1 == point.1 / t.focal * q.2)
  {
    var s := SolverSystem(t, point).value;
    assert Apply2(s.0, g).0 == Row(t.rot.r0, t.rot.r2, point.0 / t.focal).0 * g.0 + Row(t.rot.r0, t.rot.r2, point.0 / t.focal).1 * g.1;
    assert Apply2(s.0, g).1 == Row(t.rot.r1, t.rot.r2, point.1 / t.focal).0 * g.0 + Row(t.rot.r1, t.rot.r2, point.1 / t.focal).1 * g.1;
    RayRow(t.rot.r0, t.rot.r2, point.0 / t.focal, t.transl.0, t.transl.2, g.0, g.1);
    RayRow(t.rot.r1, t.rot.r2, point.1 / t.focal, t.transl.1, t.transl.2, g.0, g.1);
  }

  /** One row of the system: the solver equation for a camera axis `a`
      against the depth axis `c` says that the ground point's coordinate
      along `a` is `u` times its depth. */
  lemma RayRow(a: Vec3, c: Vec3, u: real, ta: real, tc: real, x: real, z: real)
    ensures Row(a, c, u).0 * x + Row(a, c, u).1 * z == Rhs(ta, tc, u)
      <==> Dot(a, (x, 0.0, z)) + ta == u * (Dot(c, (x, 0.0, z)) + tc)
  {
    assert Dot(a, (x, 0.0, z)) == a.0 * x + a.2 * z;
    assert Dot(c, (x, 0.0, z)) == c.0 * x + c.2 * z;
    assert (a.0 - u * c.0) * x + (a.2 - u * c.2) * z == a.0 * x + a.2 * z - u * (c.0 * x + c.2 * z);
    assert u * (c.0 * x + c.2 * z + tc) == u * (c.0 * x + c.2 * z) + u * tc;
  }

  /** `np.linalg.solve` on a 2x2 system, by Cramer's rule; an exactly
      singular matrix raises. */
  function Solve2(m: Mat2, rhs: (real, real)): (r: Result<(real, real), PerspectiveError>)
    ensures r.Ok? <==> Det(m) != 0.0
    ensures r.Err? ==> r.error == Singular
    ensures r.Ok? ==> Apply2(m, r.value) == rhs
  {
    var det := Det(m);
    if det == 0.0 then Err(Singular)
    else
      var g := ((m.d * rhs.0 - m.b * rhs.1) / det, (m.a * rhs.1 - m.c * rhs.0) / det);
      assert Apply2(m, g) == rhs by {
        Cramer(m.a, m.b, m.c, m.d, det, rhs.0, rhs.1);
        var l := Apply2(m, g);
        assert l.0 == rhs.0 && l.1 == rhs.1;
      }
      Ok(g)
  }

  /** Cramer's rule solves the system. */
  lemma Cramer(a: real, b: real, c: real, d: real, det: real, r0: real, r1: real)
    requires det == a * d - b * c && det != 0.0
    ensures a * ((d * r0 - b * r1) / det) + b * ((a * r1 - c * r0) / det) == r0
    ensures c * ((d * r0 - b * r1) / det) + d * ((a * r1 - c * r0) / det) == r1
  {
    var x := (d * r0 - b * r1) / det;
    var y := (a * r1 - c * r0) / det;
    assert x * det == d * r0 - b * r1;
    assert y * det == a * r1 - c * r0;
    assert (a * x + b * y) * det == r0 * det;
    assert (c * x + d * y) * det == r1 * det;
  }

  /** A non-singular system has no other solution. */
  lemma Solve2Unique(m: Mat2, rhs: (real, real), g: (real, real))
    requires Det(m) != 0.0 && Apply2(m, g) == rhs
    ensures Solve2(m, rhs) == Ok(g)
  {
    var h := Solve2(m, rhs).value;
    var e0, e1 := g.0 - h.0, g.1 - h.1;
    assert m.a * e0 + m.b * e1 == 0.0 && m.c * e0 + m.d * e1 == 0.0;
    assert e0 * Det(m) == m.d * (m.a * e0 + m.b * e1) - m.b * (m.c * e0 + m.d * e1);
    assert e1 * Det(m) == m.a * (m.c * e0 + m.d * e1) - m.c * (m.a * e0 + m.b * e1);
    assert g.0 == h.0 && g.1 == h.1;
  }

  /** One point of `transform_to_ground_plane`. */
  function ToGround(t: Transformer, point: (real, real)): (r: Result<(real, real), PerspectiveError>)
    ensures r.Ok? ==> t.focal != 0.0 && OnRay(t, point, r.value)
    ensures r.Err? <==> t.focal == 0.0 || Det(SolverSystem(t, point).value.0) == 0.0
  {
    match SolverSystem(t, point)
    case Err(e) => Err(e)
    case Ok(s) =>
      var r := Solve2(s.0, s.1);
      if r.Ok? then SolverSystemMeaning(t, point, r.value); r else r
  }

  /** The ground point is the only one on the ray when the system is regular. */
  lemma ToGroundUnique(t: Transformer, point: (real, real), g: (real, real))
    requires ToGround(t, point).Ok?
    requires OnRay(t, point, g)
    ensures ToGround(t, point) == Ok(g)
  {
    var s := SolverSystem(t, point).value;
    SolverSystemMeaning(t, point, g);
    Solve2Unique(s.0, s.1, g);
  }

  /** A tuple or a list of sensor points. */
  datatype SensorInput = Single(point: (real, real)) | Batch(points: seq<(real, real)>)

  datatype GroundOutput = OneGround(ground: (real, real)) | ManyGround(grounds: seq<(real, real)>)

  function ToGroundAll(t: Transformer, ps: seq<(real, real)>): (rs: seq<Result<(real, real), PerspectiveError>>)
    ensures |rs| == |ps| && forall i :: 0 <= i < |ps| ==> rs[i] == ToGround(t, ps[i])
  {
    seq(|ps|, i requires 0 <= i < |ps| => ToGround(t, ps[i]))
  }

  /** `transform_to_ground_plane`: a tuple gives a tuple, a list a list of
      the same length and order; the first point whose system cannot be
      solved aborts the whole call. */
  function TransformToGroundPlane(t: Transformer, input: SensorInput): (r: Result<GroundOutput, PerspectiveError>)
    ensures input.Single? ==> (r.Ok? <==> ToGround(t, input.point).Ok?)
    ensures input.Single? && r.Ok? ==> r.value == OneGround(ToGround(t, input.point).value)
    ensures input.Batch? ==> (r.Ok? <==> forall i :: 0 <= i < |input.points| ==> ToGround(t, input.points[i]).Ok?)
    ensures input.Batch? && r.Ok? ==> (r.value.ManyGround? && |r.value.grounds| == |input.points|
      && forall i :: 0 <= i < |input.points| ==> OnRay(t, input.points[i], r.value.grounds[i]))
    ensures input.Batch? && r.Err? ==> exists i :: (0 <= i < |input.points| && ToGround(t, input.points[i]) == Err(r.error)
      && forall j :: 0 <= j < i ==> ToGround(t, input.points[j]).Ok?)
  {
    match input
    case Single(p) =>
      (match ToGround(t, p)
       case Ok(g) => Ok(OneGround(g))
       case Err(e) => Err(e))
    case Batch(ps) =>
      match AllOk(ToGroundAll(t, ps))
      case Ok(gs) => Ok(ManyGround(gs))
      case Err(e) => Err(e)
  }
}
