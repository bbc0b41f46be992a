/** The proximity kernel of the inverse-distance interpolators: every integer
    offset other than the origin within `radius` of it, with its weight, in
    the order the two nested `range(-radius, radius + 1)` loops visit them. */
module ProximityKernel {

  /** `(i, j)`: `i` is added to the column, `j` to the row. */
  datatype Offset = Offset(dx: int, dy: int)

  type PosReal = r: real | r > 0.0 witness 1.0

  /** The weight of an offset for exponent `p`; the source computes
      `1 / distance ** p` in floating point, which is left abstract here
      and only assumed positive. */
  type WeightFn = (real, Offset) -> PosReal

  datatype Entry = Entry(offset: Offset, weight: PosReal)

  type Kernel = seq<Entry>

  function SquaredNorm(o: Offset): int {
    o.dx * o.dx + o.dy * o.dy
  }

  /** `0 < distance <= radius`, compared on squares so that it stays exact. */
  predicate InKernel(o: Offset, radius: int) {
    0 < SquaredNorm(o) <= radius * radius
  }

  /** The visiting order of the nested loops: column offset first, then row offset. */
  predicate Before(a: Offset, b: Offset) {
    a.dx < b.dx || (a.dx == b.dx && a.dy < b.dy)
  }

  predicate StrictlyOrdered(k: Kernel) {
    forall a, b :: 0 <= a < b < |k| ==> Before(k[a].offset, k[b].offset)
  }

  lemma SquareMonotone(a: nat, b: nat)
    ensures a <= b <==> a * a <= b * b
  {
    if a <= b {
      assert a * a <= a * b <= b * b;
    } else {
      assert a * a > a * b >= b * b by {
        assert a * a - a * b == a * (a - b) > 0;
        assert a * b - b * b == b * (a - b) >= 0;
      }
    }
  }

  lemma SquareBound(d: int, radius: int)
    requires radius >= 0
    requires d * d <= radius * radius
    ensures -radius <= d <= radius
  {
    var a: nat := if d >= 0 then d else -d;
    assert a * a == d * d;
    SquareMonotone(a, radius);
  }

  lemma InKernelIsBounded(radius: int)
    ensures radius >= 0 ==> forall o :: InKernel(o, radius) ==>
      -radius <= o.dx <= radius && -radius <= o.dy <= radius
  {
    if radius >= 0 {
      forall o | InKernel(o, radius)
        ensures -radius <= o.dx <= radius && -radius <= o.dy <= radius
      {
        assert o.dx * o.dx <= radius * radius;
        assert o.dy * o.dy <= radius * radius;
        SquareBound(o.dx, radius);
        SquareBound(o.dy, radius);
      }
    }
  }

  predicate OffsetsOrdered(os: seq<Offset>) {
    forall a, b :: 0 <= a < b < |os| ==> Before(os[a], os[b])
  }

  /** The inner loop: row offsets `j .. radius` for the column offset `i`. */
  function Column(i: int, j: int, radius: int): seq<Offset>
    decreases radius + 1 - j
  {
    if j > radius then []
    else (if InKernel(Offset(i, j), radius) then [Offset(i, j)] else []) + Column(i, j + 1, radius)
  }

  /** The outer loop: column offsets `i .. radius`. */
  function Rows(i: int, radius: int): seq<Offset>
    decreases radius + 1 - i
  {
    if i > radius then []
    else Column(i, -radius, radius) + Rows(i + 1, radius)
  }

  lemma {:induction false} ColumnMembers(i: int, j: int, radius: int)
    ensures forall o :: o in Column(i, j, radius) <==> o.dx == i && j <= o.dy <= radius && InKernel(o, radius)
    ensures OffsetsOrdered(Column(i, j, radius))
    decreases radius + 1 - j
  {
    if j <= radius {
      ColumnMembers(i, j + 1, radius);
      var here := if InKernel(Offset(i, j), radius) then [Offset(i, j)] else [];
      var rest := Column(i, j + 1, radius);
      assert Column(i, j, radius) == here + rest;
      assert forall o :: o in here + rest <==> o in here || o in rest;
    }
  }

  lemma RowsMembers(i: int, radius: int)
    ensures forall o :: o in Rows(i, radius) <==>
      i <= o.dx <= radius && -radius <= o.dy <= radius && InKernel(o, radius)
    ensures OffsetsOrdered(Rows(i, radius))
  {
    RowsMembership(i, radius);
    RowsOrdered(i, radius);
  }

  lemma {:induction false} RowsMembership(i: int, radius: int)
    ensures forall o :: o in Rows(i, radius) <==>
      i <= o.dx <= radius && -radius <= o.dy <= radius && InKernel(o, radius)
    decreases radius + 1 - i
  {
    if i <= radius {
      RowsMembership(i + 1, radius);
      ColumnMembers(i, -radius, radius);
      var col := Column(i, -radius, radius);
      var rest := Rows(i + 1, radius);
      assert Rows(i, radius) == col + rest;
      assert forall o :: o in col + rest <==> o in col || o in rest;
    }
  }

  lemma {:induction false} RowsOrdered(i: int, radius: int)
    ensures OffsetsOrdered(Rows(i, radius))
    decreases radius + 1 - i
  {
    if i <= radius {
      RowsOrdered(i + 1, radius);
      RowsMembership(i + 1, radius);
      ColumnMembers(i, -radius, radius);
      ConcatOrdered(Column(i, -radius, radius), Rows(i + 1, radius), i);
    }
  }

  /** The offsets of one column followed by those of later columns stay in
      loop order. */
  lemma ConcatOrdered(col: seq<Offset>, rest: seq<Offset>, i: int)
    requires OffsetsOrdered(col) && OffsetsOrdered(rest)
    requires forall o :: o in col ==> o.dx == i
    requires forall o :: o in rest ==> o.dx > i
    ensures OffsetsOrdered(col + rest)
  {
    var all := col + rest;
    forall a, b | 0 <= a < b < |all|
      ensures Before(all[a], all[b])
    {
      if b >= |col| && a < |col| {
        assert all[a] in col;
        assert all[b] == rest[b - |col|];
        assert rest[b - |col|] in rest;
      } else if a >= |col| {
        assert all[a] == rest[a - |col|];
        assert all[b] == rest[b - |col|];
      }
    }
  }

  /** The offsets of the kernel of `radius`, in loop order. */
  function Offsets(radius: int): (os: seq<Offset>)
    ensures forall o :: o in os <==> InKernel(o, radius) && radius >= 0
    ensures OffsetsOrdered(os)
    ensures radius <= 0 ==> os == []
  {
    RowsMembers(-radius, radius);
    InKernelIsBounded(radius);
    if radius <= 0 then [] else Rows(-radius, radius)
  }

  /** `__compute_proximity_weights__(radius, p)`: the offsets `(i, j) != (0, 0)`
      with `i*i + j*j <= radius*radius`, each once, in loop order, each carrying
      its weight. A negative radius makes both ranges empty. */
  function Build(radius: int, p: real, weight: WeightFn): (k: Kernel)
    ensures forall e :: e in k <==> InKernel(e.offset, radius) && e.weight == weight(p, e.offset) && radius >= 0
    ensures StrictlyOrdered(k)
    ensures radius <= 0 ==> k == []
  {
    var os := Offsets(radius);
    var k := seq(|os|, i requires 0 <= i < |os| => Entry(os[i], weight(p, os[i])));
    assert forall e: Entry :: e in k <==> e.offset in os && e.weight == weight(p, e.offset) by {
      forall e: Entry | e.offset in os && e.weight == weight(p, e.offset)
        ensures e in k
      {
        var i :| 0 <= i < |os| && os[i] == e.offset;
        assert k[i] == e;
      }
    }
    k
  }

  /** Every offset appears at most once: the kernel is a well-formed dict. */
  lemma {:induction false} BuildHasDistinctOffsets(radius: int, p: real, weight: WeightFn, a: nat, b: nat)
    requires a < b < |Build(radius, p, weight)|
    ensures Build(radius, p, weight)[a].offset != Build(radius, p, weight)[b].offset
  {
    var k := Build(radius, p, weight);
    assert Before(k[a].offset, k[b].offset);
  }
}
