/** The candidate stage: shapes are extracted from the edge and corner
    masks, reduced to quads, and passed through the side-ratio, angle and
    enclosure filters in that fixed order, each only when its flag is set. */
module Candidates {
  import opened Grid
  import opened Types
  import opened Shapes
  import opened Filters

  /** The flag-gated filters applied in order to the quads of the shapes. */
  function Refine(quads: seq<Corners>, cfg: Config, sqrt: real -> NonNegReal, acos: real -> real): (r: seq<Corners>)
    ensures |r| <= |quads|
  {
    var afterRatios := if cfg.filterRatios then FilterRatios(quads, sqrt) else quads;
    var afterAngles := if cfg.filterAngles then FilterAngles(afterRatios, sqrt, acos) else afterRatios;
    if cfg.filterEnclosed then FilterEnclosed(afterAngles) else afterAngles
  }

  /** With every flag off the quads pass unchanged. */
  lemma RefineAllOff(quads: seq<Corners>, cfg: Config, sqrt: real -> NonNegReal, acos: real -> real)
    requires !cfg.filterRatios && !cfg.filterAngles && !cfg.filterEnclosed
    ensures Refine(quads, cfg, sqrt, acos) == quads
  {
  }

  /** The filters only delete quads: what is left keeps its order. */
  lemma RefineSubseq(quads: seq<Corners>, cfg: Config, sqrt: real -> NonNegReal, acos: real -> real)
    ensures Subseq(Refine(quads, cfg, sqrt, acos), quads)
  {
    var a := if cfg.filterRatios then FilterRatios(quads, sqrt) else quads;
    var b := if cfg.filterAngles then FilterAngles(a, sqrt, acos) else a;
    var c := Refine(quads, cfg, sqrt, acos);
    if cfg.filterRatios { FilterSubseq(quads, q => RatiosOk(q, sqrt)); } else { SubseqRefl(quads); }
    if cfg.filterAngles { FilterSubseq(a, q => AnglesOk(q, sqrt, acos)); } else { SubseqRefl(a); }
    if cfg.filterEnclosed { FilterEnclosedSubseq(b); } else { SubseqRefl(b); }
    SubseqTrans(b, a, quads);
    SubseqTrans(c, b, quads);
  }

  /** A kept quad passes every enabled test; without the enclosure filter a
      quad is kept exactly when it passes the enabled ratio and angle tests. */
  lemma RefineMembers(quads: seq<Corners>, cfg: Config, sqrt: real -> NonNegReal, acos: real -> real, q: Corners)
    ensures q in Refine(quads, cfg, sqrt, acos) ==>
      q in quads && (cfg.filterRatios ==> RatiosOk(q, sqrt)) && (cfg.filterAngles ==> AnglesOk(q, sqrt, acos))
    ensures !cfg.filterEnclosed ==>
      (q in Refine(quads, cfg, sqrt, acos) <==>
       q in quads && (cfg.filterRatios ==> RatiosOk(q, sqrt)) && (cfg.filterAngles ==> AnglesOk(q, sqrt, acos)))
  {
    var a := if cfg.filterRatios then FilterRatios(quads, sqrt) else quads;
    var b := if cfg.filterAngles then FilterAngles(a, sqrt, acos) else a;
    FilterRatiosMembers(quads, sqrt, q);
    FilterAnglesMembers(a, sqrt, acos, q);
    if cfg.filterEnclosed {
      FilterEnclosedMembers(b, q);
    }
  }

  /** The candidate quads of an edge mask and a corner mask.  Also
      returned is the list of shapes the quads were taken from. */
  method FindCandidates(edges: seq<bool>, corners: seq<bool>, w: nat, h: nat, cfg: Config,
                        sqrt: real -> NonNegReal, acos: real -> real)
    returns (res: seq<Corners>, shapes: seq<seq<Point>>)
    requires |edges| == w * h && |corners| == w * h
    requires h >= 2 && (h <= 4 || w >= 2)
    ensures res == Refine(FilterQuads(shapes), cfg, sqrt, acos)
    ensures exists labelling: seq<int>, roots: seq<nat>, claimed: seq<seq<Point>> ::
      Extracted(edges, corners, w, h, shapes, labelling, roots, claimed)
    ensures forall i, p | 0 <= i < |shapes| && p in shapes[i] ::
      p.x < w && p.y < h && Get(corners, w, h, p.x, p.y) && Bag(shapes)[p] == 1
    ensures forall q | q in res :: Distinct(q) && exists s | s in shapes :: QuadOf(s) == Some(q)
    ensures Subseq(res, FilterQuads(shapes))
  {
    ghost var labelling, roots, claimed;
    shapes, labelling, roots, claimed := FindShapes(edges, corners, w, h);
    ShapePoints(corners, labelling, claimed, shapes, w, h);
    res := FilterQuads(shapes);
    if cfg.filterRatios {
      res := FilterRatios(res, sqrt);
    }
    if cfg.filterAngles {
      res := FilterAngles(res, sqrt, acos);
    }
    if cfg.filterEnclosed {
      res := FilterEnclosed(res);
    }
    RefineSubseq(FilterQuads(shapes), cfg, sqrt, acos);
    forall q | q in res ensures Distinct(q) && exists s | s in shapes :: QuadOf(s) == Some(q) {
      RefineMembers(FilterQuads(shapes), cfg, sqrt, acos, q);
      FilterQuadsMembers(shapes, q);
    }
  }
}
