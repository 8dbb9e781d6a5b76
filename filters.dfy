/** The geometric filters applied to candidate quads: side-length ratios,
    corner angles and enclosure.  Square root and arc cosine are parameters
    (the model does not compute them); every other step is the detector's
    arithmetic on real numbers. */
module Filters {
  import opened Types

  /** Largest allowed ratio between opposite sides. */
  const MaxRatio: real := 1.3
  /** Largest allowed ratio between the mean horizontal and the mean
      vertical side. */
  const VhMaxRatio: real := 1.5
  /** Single-precision pi / 2 and pi / 6. */
  const HalfPi: real := 1.5707964
  const SixthPi: real := 0.5235988

  /** The length of the vector (dx, dy). */
  function Hypot(dx: real, dy: real, sqrt: real -> NonNegReal): (d: NonNegReal)
  {
    sqrt(dx * dx + dy * dy)
  }

  /** The Euclidean distance between two pixels. */
  function Dist(a: Point, b: Point, sqrt: real -> NonNegReal): (d: NonNegReal)
  {
    Hypot(a.x as real - b.x as real, a.y as real - b.y as real, sqrt)
  }

  /** The distance does not depend on the order of its ends. */
  lemma DistSymmetric(a: Point, b: Point, sqrt: real -> NonNegReal)
    ensures Dist(a, b, sqrt) == Dist(b, a, sqrt)
  {
    var dx := a.x as real - b.x as real;
    var dy := a.y as real - b.y as real;
    assert (-dx) * (-dx) == dx * dx && (-dy) * (-dy) == dy * dy;
  }

  /** With a square root that vanishes only at zero, the distance is zero
      exactly between equal pixels. */
  lemma DistZero(a: Point, b: Point, sqrt: real -> NonNegReal)
    requires forall v: real | v >= 0.0 :: sqrt(v) == 0.0 <==> v == 0.0
    ensures Dist(a, b, sqrt) == 0.0 <==> a == b
  {
    var dx := a.x as real - b.x as real;
    var dy := a.y as real - b.y as real;
    SquarePos(dx);
    SquarePos(dy);
  }

  /** A square is never negative, and positive away from zero. */
  lemma SquarePos(d: real)
    ensures d * d >= 0.0 && (d != 0.0 ==> d * d > 0.0)
  {
  }

  /** The larger of two positive lengths over the smaller. */
  function Ratio(a: real, b: real): (q: real)
    requires a > 0.0 && b > 0.0
  {
    if a > b then a / b else b / a
  }

  /** The larger of two positive lengths over the smaller is at least one. */
  lemma QuotAtLeastOne(a: real, b: real)
    requires a >= b > 0.0
    ensures a / b >= 1.0
  {
    var q := a / b;
    assert q * b == a;
    assert (q - 1.0) * b == a - b;
  }

  /** A ratio is at least one and symmetric. */
  lemma RatioProps(a: real, b: real)
    requires a > 0.0 && b > 0.0
    ensures Ratio(a, b) >= 1.0 && Ratio(a, b) == Ratio(b, a)
  {
    if a > b {
      QuotAtLeastOne(a, b);
    } else {
      QuotAtLeastOne(b, a);
    }
  }

  /** A ratio is within m exactly when each length is within m times the
      other. */
  lemma RatioBound(a: real, b: real, m: real)
    requires a > 0.0 && b > 0.0 && m >= 1.0
    ensures Ratio(a, b) <= m <==> a <= m * b && b <= m * a
  {
    if a > b {
      assert a / b <= m <==> a <= m * b;
      assert b <= a <= m * a;
    } else {
      assert b / a <= m <==> b <= m * a;
      assert a <= b <= m * b;
    }
  }

  /** The side test: no side of length zero, opposite sides within 1.3 of
      each other and the mean horizontal and vertical sides within 1.5. */
  predicate RatiosOk(q: Corners, sqrt: real -> NonNegReal)
  {
    var t := Dist(q.tl, q.tr, sqrt);
    var b := Dist(q.bl, q.br, sqrt);
    var l := Dist(q.tl, q.bl, sqrt);
    var r := Dist(q.tr, q.br, sqrt);
    if t == 0.0 || b == 0.0 || l == 0.0 || r == 0.0 then false
    else
      Ratio(t, b) <= MaxRatio && Ratio(l, r) <= MaxRatio &&
      Ratio((t + b) / 2.0, (l + r) / 2.0) <= VhMaxRatio
  }

  /** The side test as plain inequalities between the four side lengths. */
  lemma RatiosOkSpec(q: Corners, sqrt: real -> NonNegReal)
    ensures var t, b, l, r := Dist(q.tl, q.tr, sqrt), Dist(q.bl, q.br, sqrt),
                              Dist(q.tl, q.bl, sqrt), Dist(q.tr, q.br, sqrt);
      RatiosOk(q, sqrt) <==>
        && t > 0.0 && b > 0.0 && l > 0.0 && r > 0.0
        && t <= 1.3 * b && b <= 1.3 * t && l <= 1.3 * r && r <= 1.3 * l
        && t + b <= 1.5 * (l + r) && l + r <= 1.5 * (t + b)
  {
    var t, b, l, r := Dist(q.tl, q.tr, sqrt), Dist(q.bl, q.br, sqrt),
                      Dist(q.tl, q.bl, sqrt), Dist(q.tr, q.br, sqrt);
    if t > 0.0 && b > 0.0 && l > 0.0 && r > 0.0 {
      RatioBound(t, b, MaxRatio);
      RatioBound(l, r, MaxRatio);
      RatioBound((t + b) / 2.0, (l + r) / 2.0, VhMaxRatio);
    }
  }

  /** A quad whose four sides have the same positive length passes. */
  lemma EqualSidesKept(q: Corners, sqrt: real -> NonNegReal)
    requires Dist(q.tl, q.tr, sqrt) > 0.0
    requires Dist(q.bl, q.br, sqrt) == Dist(q.tl, q.bl, sqrt) == Dist(q.tr, q.br, sqrt) == Dist(q.tl, q.tr, sqrt)
    ensures RatiosOk(q, sqrt)
  {
    RatiosOkSpec(q, sqrt);
  }

  /** The quads passing the side test, in order. */
  function FilterRatios(quads: seq<Corners>, sqrt: real -> NonNegReal): (r: seq<Corners>)
    ensures |r| <= |quads|
  {
    Filter(quads, q => RatiosOk(q, sqrt))
  }

  /** A quad survives the side filter exactly when it passes the side test. */
  lemma FilterRatiosMembers(quads: seq<Corners>, sqrt: real -> NonNegReal, q: Corners)
    ensures q in FilterRatios(quads, sqrt) <==> q in quads && RatiosOk(q, sqrt)
  {
    FilterMembers(quads, q => RatiosOk(q, sqrt), q);
  }

  /** The angle test between edge vectors (ux, uy) and (vx, vy): the angle
      must lie within pi / 6 of a right angle.  When an edge has length zero
      the quotient is not a number and the comparison with it is false, so
      the test passes. */
  predicate VectorsOk(ux: real, uy: real, vx: real, vy: real, sqrt: real -> NonNegReal, acos: real -> real)
  {
    var mag := sqrt(ux * ux + uy * uy) * sqrt(vx * vx + vy * vy);
    mag == 0.0 || Abs(acos((ux * vx + uy * vy) / mag) - HalfPi) <= SixthPi
  }

  /** The angle test at c1 between the edges from c0 and to c2, as written:
      both edge vectors are taken component-wise in absolute value before
      their angle is measured. */
  predicate AbsCornerOk(c0: Point, c1: Point, c2: Point, sqrt: real -> NonNegReal, acos: real -> real)
  {
    VectorsOk(Abs(c1.x as real - c0.x as real), Abs(c1.y as real - c0.y as real),
              Abs(c2.x as real - c1.x as real), Abs(c2.y as real - c1.y as real), sqrt, acos)
  }

  /** The angle test at c1 on the signed edge vectors. */
  predicate CornerOk(c0: Point, c1: Point, c2: Point, sqrt: real -> NonNegReal, acos: real -> real)
  {
    VectorsOk(c1.x as real - c0.x as real, c1.y as real - c0.y as real,
              c2.x as real - c1.x as real, c2.y as real - c1.y as real, sqrt, acos)
  }

  /** filter_angles as written: each corner of the cycle top-left,
      bottom-left, bottom-right, top-right passes the absolute-value test
      between its predecessor and its successor on the cycle. */
  predicate AbsAnglesOk(q: Corners, sqrt: real -> NonNegReal, acos: real -> real)
  {
    && AbsCornerOk(q.tr, q.tl, q.bl, sqrt, acos) && AbsCornerOk(q.tl, q.bl, q.br, sqrt, acos)
    && AbsCornerOk(q.bl, q.br, q.tr, sqrt, acos) && AbsCornerOk(q.br, q.tr, q.tl, sqrt, acos)
  }

  /** The corrected angle test: each corner of the cycle passes the signed
      test. */
  predicate AnglesOk(q: Corners, sqrt: real -> NonNegReal, acos: real -> real)
  {
    && CornerOk(q.tr, q.tl, q.bl, sqrt, acos) && CornerOk(q.tl, q.bl, q.br, sqrt, acos)
    && CornerOk(q.bl, q.br, q.tr, sqrt, acos) && CornerOk(q.br, q.tr, q.tl, sqrt, acos)
  }

  /** Edge vectors meeting at a right angle: zero dot product. */
  predicate RightAngle(c0: Point, c1: Point, c2: Point)
  {
    (c1.x as real - c0.x as real) * (c2.x as real - c1.x as real) +
    (c1.y as real - c0.y as real) * (c2.y as real - c1.y as real) == 0.0
  }

  /** A corner whose edges meet at a right angle passes the corrected test
      whenever acos(0) is pi / 2. */
  lemma RightAngleOk(c0: Point, c1: Point, c2: Point, sqrt: real -> NonNegReal, acos: real -> real)
    requires acos(0.0) == HalfPi && RightAngle(c0, c1, c2)
    ensures CornerOk(c0, c1, c2, sqrt, acos)
  {
  }

  /** A quad all of whose corners are right angles passes the corrected
      test, whatever its orientation. */
  lemma RectangleKept(q: Corners, sqrt: real -> NonNegReal, acos: real -> real)
    requires acos(0.0) == HalfPi
    requires RightAngle(q.tr, q.tl, q.bl) && RightAngle(q.tl, q.bl, q.br)
    requires RightAngle(q.bl, q.br, q.tr) && RightAngle(q.br, q.tr, q.tl)
    ensures AnglesOk(q, sqrt, acos)
  {
    RightAngleOk(q.tr, q.tl, q.bl, sqrt, acos);
    RightAngleOk(q.tl, q.bl, q.br, sqrt, acos);
    RightAngleOk(q.bl, q.br, q.tr, sqrt, acos);
    RightAngleOk(q.br, q.tr, q.tl, sqrt, acos);
  }

  /** A square standing on one corner: the left, top, right and bottom
      points of a diamond ten pixels across. */
  function Diamond(): (q: Corners)
    ensures Distinct(q)
  {
    Corners(Point(0, 5), Point(5, 0), Point(5, 10), Point(10, 5))
  }

  /** The test as written rejects the diamond although its corners are right
      angles: with absolute-value edge vectors both edges at every corner
      point the same way, the cosine is one and the angle zero. */
  lemma AbsAnglesRejectDiamond(sqrt: real -> NonNegReal, acos: real -> real)
    requires sqrt(50.0) * sqrt(50.0) == 50.0 && acos(1.0) == 0.0
    ensures !AbsAnglesOk(Diamond(), sqrt, acos)
  {
    var q := Diamond();
    assert q.tr == Point(5, 0) && q.tl == Point(0, 5) && q.bl == Point(5, 10);
    assert q.tl.x as real - q.tr.x as real == -5.0 && q.tl.y as real - q.tr.y as real == 5.0;
    assert q.bl.x as real - q.tl.x as real == 5.0 && q.bl.y as real - q.tl.y as real == 5.0;
    assert 5.0 * 5.0 + 5.0 * 5.0 == 50.0;
    assert (5.0 * 5.0 + 5.0 * 5.0) / (sqrt(50.0) * sqrt(50.0)) == 1.0;
    assert !VectorsOk(5.0, 5.0, 5.0, 5.0, sqrt, acos);
    assert !AbsCornerOk(q.tr, q.tl, q.bl, sqrt, acos);
  }

  /** The corrected test keeps the diamond. */
  lemma AnglesKeepDiamond(sqrt: real -> NonNegReal, acos: real -> real)
    requires acos(0.0) == HalfPi
    ensures AnglesOk(Diamond(), sqrt, acos)
  {
    var q := Diamond();
    RectangleKept(q, sqrt, acos);
  }

  /** The quads passing the angle test as written, in order. */
  function AbsFilterAngles(quads: seq<Corners>, sqrt: real -> NonNegReal, acos: real -> real): (r: seq<Corners>)
    ensures |r| <= |quads|
    ensures Subseq(r, quads)
  {
    FilterSubseq(quads, q => AbsAnglesOk(q, sqrt, acos));
    Filter(quads, q => AbsAnglesOk(q, sqrt, acos))
  }

  /** A quad survives the angle filter as written exactly when every corner
      passes the absolute-value test. */
  lemma AbsFilterAnglesMembers(quads: seq<Corners>, sqrt: real -> NonNegReal, acos: real -> real, q: Corners)
    ensures q in AbsFilterAngles(quads, sqrt, acos) <==> q in quads && AbsAnglesOk(q, sqrt, acos)
  {
    FilterMembers(quads, q => AbsAnglesOk(q, sqrt, acos), q);
  }

  /** The quads passing the corrected angle test, in order. */
  function FilterAngles(quads: seq<Corners>, sqrt: real -> NonNegReal, acos: real -> real): (r: seq<Corners>)
    ensures |r| <= |quads|
  {
    Filter(quads, q => AnglesOk(q, sqrt, acos))
  }

  /** A quad survives the angle filter exactly when every corner passes. */
  lemma FilterAnglesMembers(quads: seq<Corners>, sqrt: real -> NonNegReal, acos: real -> real, q: Corners)
    ensures q in FilterAngles(quads, sqrt, acos) <==> q in quads && AnglesOk(q, sqrt, acos)
  {
    FilterMembers(quads, q => AnglesOk(q, sqrt, acos), q);
  }

  /** The axis-aligned bounding box of a quad as the filter computes it:
      left from the left corners, right from the right corners, top from the
      top corners and bottom from the bottom corners. */
  datatype Bounds = Bounds(l: nat, r: nat, t: nat, b: nat)

  function Min(a: nat, b: nat): nat { if a < b then a else b }
  function Max(a: nat, b: nat): nat { if a > b then a else b }

  function BoundsOf(q: Corners): (bd: Bounds)
    ensures bd.l <= q.tl.x && bd.l <= q.bl.x && (bd.l == q.tl.x || bd.l == q.bl.x)
    ensures bd.r >= q.tr.x && bd.r >= q.br.x && (bd.r == q.tr.x || bd.r == q.br.x)
    ensures bd.t <= q.tl.y && bd.t <= q.tr.y && (bd.t == q.tl.y || bd.t == q.tr.y)
    ensures bd.b >= q.bl.y && bd.b >= q.br.y && (bd.b == q.bl.y || bd.b == q.br.y)
  {
    Bounds(Min(q.tl.x, q.bl.x), Max(q.tr.x, q.br.x), Min(q.tl.y, q.tr.y), Max(q.bl.y, q.br.y))
  }

  /** o strictly contains bd on all four sides. */
  predicate Encloses(o: Bounds, bd: Bounds)
  {
    o.l < bd.l && o.r > bd.r && o.t < bd.t && o.b > bd.b
  }

  /** Strict enclosure is irreflexive and transitive. */
  lemma EnclosesOrder(a: Bounds, b: Bounds, c: Bounds)
    ensures !Encloses(a, a)
    ensures Encloses(a, b) && Encloses(b, c) ==> Encloses(a, c)
    ensures Encloses(a, b) ==> !Encloses(b, a)
  {
  }

  /** The quad at idx lies strictly inside the box of another quad. */
  predicate EnclosedAt(quads: seq<Corners>, idx: nat)
    requires idx < |quads|
  {
    exists j | 0 <= j < |quads| :: j != idx && Encloses(BoundsOf(quads[j]), BoundsOf(quads[idx]))
  }

  /** The quads no other quad encloses, in order. */
  function FilterEnclosed(quads: seq<Corners>): (r: seq<Corners>)
    ensures |r| <= |quads|
  {
    Select(quads, (k: nat) => k < |quads| && !EnclosedAt(quads, k), 0)
  }

  /** A quad is kept exactly when it stands at a position no other quad's
      box encloses. */
  lemma FilterEnclosedMembers(quads: seq<Corners>, q: Corners)
    ensures q in FilterEnclosed(quads) <==>
      exists k :: 0 <= k < |quads| && quads[k] == q && !EnclosedAt(quads, k)
  {
    SelectMembers(quads, (k: nat) => k < |quads| && !EnclosedAt(quads, k), 0, q);
  }

  /** The enclosure filter keeps the order of the quads it keeps. */
  lemma FilterEnclosedSubseq(quads: seq<Corners>)
    ensures Subseq(FilterEnclosed(quads), quads)
  {
    SelectSubseq(quads, (k: nat) => k < |quads| && !EnclosedAt(quads, k), 0);
    assert quads[0..] == quads;
  }

  /** The index of a quad of greatest box width among the first n. */
  function Widest(quads: seq<Corners>, n: nat): (k: nat)
    requires 0 < n <= |quads|
    ensures k < n
    ensures forall j | 0 <= j < n ::
      BoundsOf(quads[j]).r - BoundsOf(quads[j]).l <= BoundsOf(quads[k]).r - BoundsOf(quads[k]).l
  {
    if n == 1 then 0
    else
      var k := Widest(quads, n - 1);
      var bk, bn := BoundsOf(quads[k]), BoundsOf(quads[n - 1]);
      if bn.r - bn.l > bk.r - bk.l then n - 1 else k
  }

  /** The enclosure filter never discards every quad: a widest one has no
      quad around it. */
  lemma FilterEnclosedNonEmpty(quads: seq<Corners>)
    requires quads != []
    ensures FilterEnclosed(quads) != []
  {
    var k := Widest(quads, |quads|);
    forall j | 0 <= j < |quads| ensures !Encloses(BoundsOf(quads[j]), BoundsOf(quads[k])) {
    }
    assert !EnclosedAt(quads, k);
    FilterEnclosedMembers(quads, quads[k]);
  }

  /** Of a quad and one whose box strictly encloses it, only the outer one
      is kept. */
  lemma NestedPair(inner: Corners, outer: Corners)
    requires Encloses(BoundsOf(outer), BoundsOf(inner))
    ensures FilterEnclosed([inner, outer]) == [outer]
  {
    var quads := [inner, outer];
    assert Encloses(BoundsOf(quads[1]), BoundsOf(quads[0]));
    assert EnclosedAt(quads, 0);
    EnclosesOrder(BoundsOf(outer), BoundsOf(inner), BoundsOf(outer));
    assert !Encloses(BoundsOf(quads[0]), BoundsOf(quads[1]));
    assert !EnclosedAt(quads, 1);
    var keep := (k: nat) => k < |quads| && !EnclosedAt(quads, k);
    assert Select(quads, keep, 2) == [];
    assert Select(quads, keep, 1) == [outer];
  }
}
