/** The earlier tag pipeline: shapes are extracted with optional labels,
    reduced to quads, and optionally passed through a parallelogram test and
    the enclosure filter.  Shape extraction is the same raster pass as the
    later one except that a pixel without label holds None instead of 0;
    the two label encodings are shown to be inverse to each other, so the
    pass is modelled through the 0-sentinel one. */
module Tags {
  import opened Grid
  import opened Types
  import opened Shapes
  import opened Filters

  /** Largest allowed sum of the relative deviations of opposite sides. */
  const ParaThresh: real := 0.75

  // Label encodings

  /** The optional label of one pixel: 0 is "no label". */
  function ToOption(l: nat): Option<nat>
  {
    if l == 0 then None else Some(l)
  }

  /** The 0-sentinel label of one pixel. */
  function FromOption(o: Option<nat>): nat
  {
    match o
    case None => 0
    case Some(v) => v
  }

  /** A 0-sentinel labelling as optional labels. */
  function Encode(labels: seq<int>): (opt: seq<Option<nat>>)
    requires forall i | 0 <= i < |labels| :: labels[i] >= 0
    ensures |opt| == |labels|
  {
    seq(|labels|, i requires 0 <= i < |labels| => ToOption(labels[i]))
  }

  /** Optional labels as a 0-sentinel labelling. */
  function Decode(opt: seq<Option<nat>>): (labels: seq<int>)
    ensures |labels| == |opt|
    ensures forall i | 0 <= i < |labels| :: labels[i] >= 0
  {
    seq(|opt|, i requires 0 <= i < |opt| => FromOption(opt[i]) as int)
  }

  /** Decoding an encoded labelling gives it back. */
  lemma DecodeEncode(labels: seq<int>)
    requires forall i | 0 <= i < |labels| :: labels[i] >= 0
    ensures Decode(Encode(labels)) == labels
  {
  }

  /** Encoding decoded labels gives them back, as long as no pixel holds
      Some(0); the pass never hands out label 0. */
  lemma EncodeDecode(opt: seq<Option<nat>>)
    requires forall i | 0 <= i < |opt| :: opt[i] != Some(0)
    ensures Encode(Decode(opt)) == opt
  {
    var r := Encode(Decode(opt));
    forall i | 0 <= i < |opt| ensures r[i] == opt[i] {
      if opt[i].Some? {
        assert opt[i].value != 0;
      }
    }
  }

  /** The one test the pass makes on a neighbour's label is the same in
      both encodings: Some exactly where the sentinel label is not 0. */
  lemma EncodeTest(labels: seq<int>, w: nat, h: nat, x: nat, y: nat)
    requires |labels| == w * h && x < w && y < h
    requires forall i | 0 <= i < |labels| :: labels[i] >= 0
    ensures Get(Encode(labels), w, h, x, y).Some? <==> Get(labels, w, h, x, y) != 0
    ensures Get(Encode(labels), w, h, x, y).Some? ==>
      Get(Encode(labels), w, h, x, y).value == Get(labels, w, h, x, y)
  {
    IdxBelow(w, h, x, y);
  }

  /** The optional labelling at the end of the pass: exactly the edge
      pixels clear of the border carry a label, every label names a set of
      the partition roots, and labelled pixels within two cells of each
      other share a set. */
  ghost predicate OptLabelled(edges: seq<bool>, labelling: seq<Option<nat>>, roots: seq<nat>, w: nat, h: nat)
    requires |edges| == w * h && |labelling| == w * h
  {
    && (forall x: nat, y: nat | x < w && y < h ::
          Get(labelling, w, h, x, y).Some? == (Get(edges, w, h, x, y) && Inner(w, h, x, y)))
    && (forall x: nat, y: nat | x < w && y < h && Get(labelling, w, h, x, y).Some? ::
          0 < Get(labelling, w, h, x, y).value < |roots|)
    && (forall x1: nat, y1: nat, x2: nat, y2: nat |
          x1 < w && y1 < h && x2 < w && y2 < h && Near(x2, y2, x1, y1, 2) &&
          Get(labelling, w, h, x1, y1).Some? && Get(labelling, w, h, x2, y2).Some? ::
          0 < Get(labelling, w, h, x1, y1).value < |roots| && 0 < Get(labelling, w, h, x2, y2).value < |roots| &&
          roots[Get(labelling, w, h, x1, y1).value] == roots[Get(labelling, w, h, x2, y2).value])
  }

  /** Every point of a shape is an in-bounds pixel of the corner mask, and
      no point occurs twice across all shapes. */
  ghost predicate PointsClaimed(shapes: seq<seq<Point>>, corners: seq<bool>, w: nat, h: nat)
    requires |corners| == w * h
  {
    forall i, p | 0 <= i < |shapes| && p in shapes[i] ::
      p.x < w && p.y < h && Get(corners, w, h, p.x, p.y) && Bag(shapes)[p] == 1
  }

  /** The shapes of the pass with optional labels: the ghost results are
      the final labelling, the union-find partition and the per-label corner
      lists. */
  method FindShapesOpt(edges: seq<bool>, corners: seq<bool>, w: nat, h: nat)
    returns (shapes: seq<seq<Point>>, ghost labelling: seq<Option<nat>>, ghost roots: seq<nat>,
             ghost claimed: seq<seq<Point>>)
    requires |edges| == w * h && |corners| == w * h
    requires h >= 2 && (h <= 4 || w >= 2)
    ensures |labelling| == w * h && |claimed| == |roots|
    ensures OptLabelled(edges, labelling, roots, w, h)
    ensures Extracted(edges, corners, w, h, shapes, Decode(labelling), roots, claimed)
    ensures PointsClaimed(shapes, corners, w, h)
  {
    ghost var labels;
    shapes, labels, roots, claimed := FindShapes(edges, corners, w, h);
    ShapePoints(corners, labels, claimed, shapes, w, h);
    forall i | 0 <= i < |labels| ensures labels[i] >= 0 {
      RowBelow(w, h, i);
      var x, y := Col(w, i), Row(w, i);
      IdxOfColRow(w, i);
      assert labels[i] == Get(labels, w, h, x, y);
    }
    labelling := Encode(labels);
    forall x: nat, y: nat | x < w && y < h
      ensures Get(labelling, w, h, x, y).Some? <==> Get(labels, w, h, x, y) != 0
      ensures Get(labelling, w, h, x, y).Some? ==> Get(labelling, w, h, x, y).value == Get(labels, w, h, x, y)
    {
      EncodeTest(labels, w, h, x, y);
    }
    DecodeEncode(labels);
  }

  // The parallelogram test

  /** Opposite sides of a parallelogram are equally long: the horizontal
      sides relative to each other, and so are the vertical ones.  The test
      rejects a quad with a side of length zero and keeps one whose summed
      relative deviations stay below 0.75. */
  predicate ParaOk(q: Corners, sqrt: real -> NonNegReal)
  {
    var t := Dist(q.tl, q.tr, sqrt);
    var b := Dist(q.bl, q.br, sqrt);
    var l := Dist(q.tl, q.bl, sqrt);
    var r := Dist(q.tr, q.br, sqrt);
    if t == 0.0 || b == 0.0 || l == 0.0 || r == 0.0 then false
    else Deviation(t, b) + Deviation(l, r) < ParaThresh
  }

  /** How far the ratio of a to b lies from one. */
  function Deviation(a: real, b: real): real
    requires b != 0.0
  {
    var ratio := Abs(a / b);
    Abs(ratio - 1.0)
  }

  /** The deviation of a from a positive b, scaled by b, is their distance. */
  lemma DeviationScaled(a: real, b: real)
    requires a >= 0.0 && b > 0.0
    ensures Deviation(a, b) * b == Abs(a - b)
  {
    var q := a / b;
    assert q * b == a;
    assert q >= 0.0;
    assert (q - 1.0) * b == a - b;
    if q < 1.0 {
      assert (1.0 - q) * b == b - a;
    }
  }

  /** From x * r < y * r with r positive follows x < y. */
  lemma CancelLess(x: real, y: real, r: real)
    requires r > 0.0 && x * r < y * r
    ensures x < y
  {
  }

  /** Scaling the summed deviations by the product of the two bases. */
  lemma ScaleSum(dx: real, dy: real, da: real, db: real, b: real, r: real)
    requires b > 0.0 && r > 0.0 && dx * b == da && dy * r == db
    ensures dx + dy < ParaThresh <==> da * r + db * b < ParaThresh * b * r
  {
    var br := b * r;
    assert br > 0.0;
    assert (dx + dy) * br == da * r + db * b;
    if dx + dy < ParaThresh {
      assert (ParaThresh - (dx + dy)) * br > 0.0;
    } else {
      assert ((dx + dy) - ParaThresh) * br >= 0.0;
    }
  }

  /** The summed deviations of positive side lengths, free of division. */
  lemma DeviationTest(t: real, b: real, l: real, r: real)
    requires t > 0.0 && b > 0.0 && l > 0.0 && r > 0.0
    ensures Deviation(t, b) + Deviation(l, r) < ParaThresh <==> Abs(t - b) * r + Abs(l - r) * b < 0.75 * b * r
  {
    DeviationScaled(t, b);
    DeviationScaled(l, r);
    ScaleSum(Deviation(t, b), Deviation(l, r), Abs(t - b), Abs(l - r), b, r);
  }

  /** The test as inequalities between the side lengths, free of division. */
  lemma ParaOkSpec(q: Corners, sqrt: real -> NonNegReal)
    ensures var t, b, l, r := Dist(q.tl, q.tr, sqrt), Dist(q.bl, q.br, sqrt),
                              Dist(q.tl, q.bl, sqrt), Dist(q.tr, q.br, sqrt);
      ParaOk(q, sqrt) <==>
        && t > 0.0 && b > 0.0 && l > 0.0 && r > 0.0
        && Abs(t - b) * r + Abs(l - r) * b < 0.75 * b * r
  {
    var t, b, l, r := Dist(q.tl, q.tr, sqrt), Dist(q.bl, q.br, sqrt), Dist(q.tl, q.bl, sqrt), Dist(q.tr, q.br, sqrt);
    if t > 0.0 && b > 0.0 && l > 0.0 && r > 0.0 {
      DeviationTest(t, b, l, r);
    }
  }

  /** Side lengths meeting the division-free test lie within a factor
      0.25 to 1.75 of the opposite side. */
  lemma SidesBounded(t: real, b: real, l: real, r: real)
    requires t > 0.0 && b > 0.0 && l > 0.0 && r > 0.0
    requires Abs(t - b) * r + Abs(l - r) * b < 0.75 * b * r
    ensures 0.25 * b < t < 1.75 * b && 0.25 * r < l < 1.75 * r
  {
    var dt, dl := Abs(t - b), Abs(l - r);
    assert dl * b >= 0.0 && dt * r >= 0.0;
    assert dt * r < 0.75 * b * r;
    CancelLess(dt, 0.75 * b, r);
    assert dl * b < 0.75 * b * r;
    assert 0.75 * b * r == (0.75 * r) * b;
    CancelLess(dl, 0.75 * r, b);
  }

  /** A kept quad has each side within a factor 0.25 to 1.75 of the
      opposite one. */
  lemma ParaOkBounds(q: Corners, sqrt: real -> NonNegReal)
    requires ParaOk(q, sqrt)
    ensures var t, b, l, r := Dist(q.tl, q.tr, sqrt), Dist(q.bl, q.br, sqrt),
                              Dist(q.tl, q.bl, sqrt), Dist(q.tr, q.br, sqrt);
      0.25 * b < t < 1.75 * b && 0.25 * r < l < 1.75 * r
  {
    ParaOkSpec(q, sqrt);
    SidesBounded(Dist(q.tl, q.tr, sqrt), Dist(q.bl, q.br, sqrt), Dist(q.tl, q.bl, sqrt), Dist(q.tr, q.br, sqrt));
  }

  /** A side of length zero fails the test: with a square root that is zero
      at zero, two coinciding neighbouring corners are rejected. */
  lemma CollapsedRejected(q: Corners, sqrt: real -> NonNegReal)
    requires sqrt(0.0) == 0.0
    requires q.tl == q.tr || q.bl == q.br || q.tl == q.bl || q.tr == q.br
    ensures !ParaOk(q, sqrt)
  {
    var a, b: Point :| a == b && ((a == q.tl && b == q.tr) || (a == q.bl && b == q.br) ||
                                  (a == q.tl && b == q.bl) || (a == q.tr && b == q.br));
    assert Dist(a, b, sqrt) == 0.0;
  }

  /** Translating both ends of a segment keeps its length. */
  lemma DistTranslate(a: Point, b: Point, c: Point, d: Point, sqrt: real -> NonNegReal)
    requires b.x as int - a.x as int == d.x as int - c.x as int
    requires b.y as int - a.y as int == d.y as int - c.y as int
    ensures Dist(a, b, sqrt) == Dist(c, d, sqrt)
  {
    assert a.x as real - b.x as real == c.x as real - d.x as real;
    assert a.y as real - b.y as real == c.y as real - d.y as real;
  }

  /** A parallelogram with sides of positive length is kept: its opposite
      sides are translates of each other and hence equally long. */
  lemma ParallelogramKept(q: Corners, sqrt: real -> NonNegReal)
    requires q.tr.x as int - q.tl.x as int == q.br.x as int - q.bl.x as int
    requires q.tr.y as int - q.tl.y as int == q.br.y as int - q.bl.y as int
    requires Dist(q.tl, q.tr, sqrt) > 0.0 && Dist(q.tl, q.bl, sqrt) > 0.0
    ensures ParaOk(q, sqrt)
  {
    var t: real, b: real, l: real, r: real := Dist(q.tl, q.tr, sqrt), Dist(q.bl, q.br, sqrt),
                      Dist(q.tl, q.bl, sqrt), Dist(q.tr, q.br, sqrt);
    DistTranslate(q.tl, q.tr, q.bl, q.br, sqrt);
    DistTranslate(q.tl, q.bl, q.tr, q.br, sqrt);
    ParaOkSpec(q, sqrt);
  }

  /** The quads passing the parallelogram test, in order. */
  function FilterParas(quads: seq<Corners>, sqrt: real -> NonNegReal): (r: seq<Corners>)
    ensures |r| <= |quads|
  {
    Filter(quads, q => ParaOk(q, sqrt))
  }

  /** A quad survives the parallelogram filter exactly when it passes the
      test. */
  lemma FilterParasMembers(quads: seq<Corners>, sqrt: real -> NonNegReal, q: Corners)
    ensures q in FilterParas(quads, sqrt) <==> q in quads && ParaOk(q, sqrt)
  {
    FilterMembers(quads, q => ParaOk(q, sqrt), q);
  }

  // The pipeline

  /** The flag-gated filters of the earlier pipeline applied in order. */
  function Screen(quads: seq<Corners>, paras: bool, enclosed: bool, sqrt: real -> NonNegReal): (r: seq<Corners>)
    ensures |r| <= |quads|
  {
    var afterParas := if paras then FilterParas(quads, sqrt) else quads;
    if enclosed then FilterEnclosed(afterParas) else afterParas
  }

  /** The filters only delete quads: what is left keeps its order. */
  lemma ScreenSubseq(quads: seq<Corners>, paras: bool, enclosed: bool, sqrt: real -> NonNegReal)
    ensures Subseq(Screen(quads, paras, enclosed, sqrt), quads)
  {
    var a := if paras then FilterParas(quads, sqrt) else quads;
    var c := Screen(quads, paras, enclosed, sqrt);
    if paras { FilterSubseq(quads, q => ParaOk(q, sqrt)); } else { SubseqRefl(quads); }
    if enclosed { FilterEnclosedSubseq(a); } else { SubseqRefl(a); }
    SubseqTrans(c, a, quads);
  }

  /** A kept quad passes the parallelogram test when it is enabled; without
      the enclosure filter a quad is kept exactly when it passes the enabled
      test. */
  lemma ScreenMembers(quads: seq<Corners>, paras: bool, enclosed: bool, sqrt: real -> NonNegReal, q: Corners)
    ensures q in Screen(quads, paras, enclosed, sqrt) ==> q in quads && (paras ==> ParaOk(q, sqrt))
    ensures !enclosed ==>
      (q in Screen(quads, paras, enclosed, sqrt) <==> q in quads && (paras ==> ParaOk(q, sqrt)))
  {
    var a := if paras then FilterParas(quads, sqrt) else quads;
    FilterParasMembers(quads, sqrt, q);
    if enclosed {
      FilterEnclosedMembers(a, q);
    }
  }

  /** The tags of an edge mask and a corner mask under the two flags.  Also
      returned is the list of shapes the quads were taken from. */
  method FindTags(edges: seq<bool>, corners: seq<bool>, w: nat, h: nat, paras: bool, enclosed: bool,
                  sqrt: real -> NonNegReal)
    returns (res: seq<Corners>, shapes: seq<seq<Point>>)
    requires |edges| == w * h && |corners| == w * h
    requires h >= 2 && (h <= 4 || w >= 2)
    ensures res == Screen(FilterQuads(shapes), paras, enclosed, sqrt)
    ensures exists labelling: seq<int>, roots: seq<nat>, claimed: seq<seq<Point>> ::
      Extracted(edges, corners, w, h, shapes, labelling, roots, claimed)
    ensures PointsClaimed(shapes, corners, w, h)
    ensures Subseq(res, FilterQuads(shapes))
  {
    ghost var labelling, roots, claimed;
    shapes, labelling, roots, claimed := FindShapesOpt(edges, corners, w, h);
    res := QuadsOf(shapes, paras, enclosed, sqrt);
  }

  /** The quads of the shapes, screened by the enabled filters in order. */
  method QuadsOf(shapes: seq<seq<Point>>, paras: bool, enclosed: bool, sqrt: real -> NonNegReal)
    returns (res: seq<Corners>)
    ensures res == Screen(FilterQuads(shapes), paras, enclosed, sqrt)
    ensures Subseq(res, FilterQuads(shapes))
  {
    res := FilterQuads(shapes);
    if paras {
      res := FilterParas(res, sqrt);
    }
    if enclosed {
      res := FilterEnclosed(res);
    }
    ScreenSubseq(FilterQuads(shapes), paras, enclosed, sqrt);
  }

  /** Every screened quad has distinct corners, passes the enabled
      parallelogram test and is the quad of one of the shapes. */
  lemma ScreenedQuads(shapes: seq<seq<Point>>, paras: bool, enclosed: bool, sqrt: real -> NonNegReal)
    ensures forall q | q in Screen(FilterQuads(shapes), paras, enclosed, sqrt) ::
      && Distinct(q) && (paras ==> ParaOk(q, sqrt))
      && exists s | s in shapes :: QuadOf(s) == Some(q)
  {
    forall q | q in Screen(FilterQuads(shapes), paras, enclosed, sqrt)
      ensures Distinct(q) && (paras ==> ParaOk(q, sqrt)) && exists s | s in shapes :: QuadOf(s) == Some(q)
    {
      ScreenMembers(FilterQuads(shapes), paras, enclosed, sqrt, q);
      FilterQuadsMembers(shapes, q);
    }
  }
}
