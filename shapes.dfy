/** Shape extraction.  Edge pixels are labelled in one raster pass, labels
    that meet within a 5x5 window are united, every labelled pixel claims the
    first unclaimed corner pixel of its 3x3 neighbourhood, and the corners
    claimed by all labels of one union-find set form one shape.  Each shape
    is then reduced to its four extreme corners. */
module Shapes {
  import opened Grid
  import opened Types
  import opened Uf

  /** (x, y) lies within Chebyshev distance r of (cx, cy). */
  predicate Near(x: nat, y: nat, cx: nat, cy: nat, r: nat)
  {
    x <= cx + r && cx <= x + r && y <= cy + r && cy <= y + r
  }

  /** The pixels the labelling pass visits: two cells clear of every border. */
  predicate Inner(w: nat, h: nat, x: nat, y: nat)
  {
    2 <= x && x + 2 < w && 2 <= y && y + 2 < h
  }

  /** (x', y') precedes (x, y) in row-major order. */
  predicate Before(x': nat, y': nat, x: nat, y: nat)
  {
    y' < y || (y' == y && x' < x)
  }

  /** Every label in the grid lies in [0, n). */
  ghost predicate LabelsBelow(labels: seq<int>, w: nat, h: nat, n: nat)
    requires |labels| == w * h
  {
    forall x: nat, y: nat | x < w && y < h :: 0 <= Get(labels, w, h, x, y) < n
  }

  /** Exactly the edge pixels the raster pass has visited before (x, y)
      carry a label. */
  ghost predicate Labelled(edges: seq<bool>, labels: seq<int>, w: nat, h: nat, x: nat, y: nat)
    requires |edges| == w * h && |labels| == w * h
  {
    forall x': nat, y': nat | x' < w && y' < h ::
      (Get(labels, w, h, x', y') != 0) ==
      (Get(edges, w, h, x', y') && Inner(w, h, x', y') && Before(x', y', x, y))
  }

  /** Labelling the edge pixel (x, y) moves the raster position one step. */
  lemma LabelledMark(edges: seq<bool>, labels: seq<int>, w: nat, h: nat, x: nat, y: nat, lab: int)
    requires |edges| == w * h && |labels| == w * h && Inner(w, h, x, y)
    requires Labelled(edges, labels, w, h, x, y) && Get(edges, w, h, x, y) && lab != 0
    ensures Labelled(edges, Set(labels, w, h, x, y, lab), w, h, x + 1, y)
  {
  }

  /** Passing over a pixel that is no edge moves the raster position. */
  lemma LabelledSkip(edges: seq<bool>, labels: seq<int>, w: nat, h: nat, x: nat, y: nat)
    requires |edges| == w * h && |labels| == w * h && x < w && y < h
    requires Labelled(edges, labels, w, h, x, y) && !Get(edges, w, h, x, y)
    ensures Labelled(edges, labels, w, h, x + 1, y)
  {
  }

  /** Past the last inner column the pass continues on the next row. */
  lemma LabelledRow(edges: seq<bool>, labels: seq<int>, w: nat, h: nat, x: nat, y: nat)
    requires |edges| == w * h && |labels| == w * h && x + 2 >= w
    requires Labelled(edges, labels, w, h, x, y)
    ensures Labelled(edges, labels, w, h, 2, y + 1)
  {
  }

  /** Past the last inner row every inner edge pixel is labelled. */
  lemma LabelledDone(edges: seq<bool>, labels: seq<int>, w: nat, h: nat, y: nat)
    requires |edges| == w * h && |labels| == w * h && y + 2 >= h
    requires Labelled(edges, labels, w, h, 2, y)
    ensures forall x': nat, y': nat | x' < w && y' < h ::
      (Get(labels, w, h, x', y') != 0) == (Get(edges, w, h, x', y') && Inner(w, h, x', y'))
  {
  }

  /** Labelled pixels within distance two of each other have labels in the
      same set of the partition root. */
  ghost predicate Linked(labels: seq<int>, root: seq<nat>, w: nat, h: nat)
    requires |labels| == w * h && LabelsBelow(labels, w, h, |root|)
  {
    forall x1: nat, y1: nat, x2: nat, y2: nat |
      x1 < w && y1 < h && x2 < w && y2 < h && Near(x2, y2, x1, y1, 2) &&
      Get(labels, w, h, x1, y1) != 0 && Get(labels, w, h, x2, y2) != 0 ::
      root[Get(labels, w, h, x1, y1)] == root[Get(labels, w, h, x2, y2)]
  }

  /** All points of a list of point lists, counted with multiplicity. */
  ghost function Bag(ss: seq<seq<Point>>): multiset<Point>
  {
    if ss == [] then multiset{} else Bag(ss[..|ss| - 1]) + multiset(ss[|ss| - 1])
  }

  lemma BagAppend(ss: seq<seq<Point>>, t: seq<Point>)
    ensures Bag(ss + [t]) == Bag(ss) + multiset(t)
  {
    assert (ss + [t])[..|ss|] == ss;
  }

  lemma BagPrefix(ss: seq<seq<Point>>, k: nat)
    requires k < |ss|
    ensures Bag(ss[..k + 1]) == Bag(ss[..k]) + multiset(ss[k])
  {
    assert ss[..k + 1][..k] == ss[..k];
  }

  /** The points of a concatenation are those of its two parts. */
  lemma {:induction false} BagConcat(ss: seq<seq<Point>>, tt: seq<seq<Point>>)
    ensures Bag(ss + tt) == Bag(ss) + Bag(tt)
    decreases |tt|
  {
    if tt == [] {
      assert ss + tt == ss;
    } else {
      var n := |tt| - 1;
      var st := ss + tt;
      assert st[..|st| - 1] == ss + tt[..n] && st[|st| - 1] == tt[n];
      assert Bag(st) == Bag(ss + tt[..n]) + multiset(tt[n]);
      assert Bag(tt) == Bag(tt[..n]) + multiset(tt[n]);
      BagConcat(ss, tt[..n]);
    }
  }

  /** Extending one list of ss by t adds exactly the points of t. */
  lemma {:induction false} BagExtend(ss: seq<seq<Point>>, k: nat, t: seq<Point>)
    requires k < |ss|
    ensures Bag(ss[k := ss[k] + t]) == Bag(ss) + multiset(t)
    decreases |ss|
  {
    var n := |ss| - 1;
    var ss' := ss[k := ss[k] + t];
    assert ss'[..n] == if k == n then ss[..n] else ss[..n][k := ss[..n][k] + t];
    if k < n {
      BagExtend(ss[..n], k, t);
    }
  }

  /** A list of empty lists holds no points. */
  lemma {:induction false} BagEmpty(ss: seq<seq<Point>>)
    requires forall i | 0 <= i < |ss| :: ss[i] == []
    ensures Bag(ss) == multiset{}
    decreases |ss|
  {
    if ss != [] {
      BagEmpty(ss[..|ss| - 1]);
    }
  }

  /** Every point of a member list is in the bag. */
  lemma {:induction false} BagMember(ss: seq<seq<Point>>, k: nat, p: Point)
    requires k < |ss| && p in ss[k]
    ensures p in Bag(ss)
    decreases |ss|
  {
    if k < |ss| - 1 {
      BagMember(ss[..|ss| - 1], k, p);
    }
  }

  /** Some pixel carrying label k lies next to the point p. */
  ghost predicate ClaimedBy(labels: seq<int>, w: nat, h: nat, k: nat, p: Point)
    requires |labels| == w * h
  {
    exists ex: nat, ey: nat | ex < w && ey < h ::
      Get(labels, w, h, ex, ey) == k && Near(p.x, p.y, ex, ey, 1)
  }

  /** The claimed points: list 0 is empty, every point is a corner pixel,
      no point is claimed twice, and every point of list k lies next to a
      pixel labelled k. */
  ghost predicate Claimed(corners: seq<bool>, labels: seq<int>, pts: seq<seq<Point>>, w: nat, h: nat)
    requires |corners| == w * h && |labels| == w * h
  {
    && |pts| > 0 && pts[0] == []
    && (forall p | p in Bag(pts) :: p.x < w && p.y < h && Get(corners, w, h, p.x, p.y))
    && (forall p | p in Bag(pts) :: Bag(pts)[p] == 1)
    && (forall k | 0 <= k < |pts| :: forall p | p in pts[k] :: ClaimedBy(labels, w, h, k, p))
  }

  /** Claimed, and the working corner mask cs is the original mask with
      exactly the claimed points cleared (at least those cleared). */
  ghost predicate Claims(corners: seq<bool>, cs: seq<bool>, labels: seq<int>, pts: seq<seq<Point>>, w: nat, h: nat)
    requires |corners| == w * h && |cs| == w * h && |labels| == w * h
  {
    && Claimed(corners, labels, pts, w, h)
    && (forall x: nat, y: nat | x < w && y < h && Get(cs, w, h, x, y) :: Get(corners, w, h, x, y))
    && (forall p | p in Bag(pts) :: p.x < w && p.y < h && !Get(cs, w, h, p.x, p.y))
  }

  /** Labelling a still unlabelled pixel keeps every claim witnessed. */
  lemma ClaimsRelabel(corners: seq<bool>, cs: seq<bool>, labels: seq<int>, pts: seq<seq<Point>>,
                      w: nat, h: nat, x: nat, y: nat, lab: nat)
    requires |corners| == w * h && |cs| == w * h && |labels| == w * h && x < w && y < h
    requires Claims(corners, cs, labels, pts, w, h) && Get(labels, w, h, x, y) == 0
    ensures Claims(corners, cs, Set(labels, w, h, x, y, lab), pts, w, h)
  {
    var labels' := Set(labels, w, h, x, y, lab);
    forall k, p | 0 <= k < |pts| && p in pts[k] ensures ClaimedBy(labels', w, h, k, p) {
      assert ClaimedBy(labels, w, h, k, p);
      var ex: nat, ey: nat :| ex < w && ey < h && Get(labels, w, h, ex, ey) == k && Near(p.x, p.y, ex, ey, 1);
      assert Get(labels', w, h, ex, ey) == k;
    }
  }

  /** Opening a new, empty point list keeps the claims. */
  lemma ClaimsAlloc(corners: seq<bool>, cs: seq<bool>, labels: seq<int>, pts: seq<seq<Point>>, w: nat, h: nat)
    requires |corners| == w * h && |cs| == w * h && |labels| == w * h
    requires Claims(corners, cs, labels, pts, w, h)
    ensures Claims(corners, cs, labels, pts + [[]], w, h)
  {
    BagAppend(pts, []);
    assert (pts + [[]])[0] == pts[0];
    forall k, p | 0 <= k < |pts + [[]]| && p in (pts + [[]])[k] ensures ClaimedBy(labels, w, h, k, p) {
      assert k < |pts| && p in pts[k];
    }
  }

  /** Claiming the still unclaimed corner c for the pixel (x, y) labelled lab
      adds c to list lab and clears it from the working mask. */
  lemma ClaimsTake(corners: seq<bool>, cs: seq<bool>, labels: seq<int>, pts: seq<seq<Point>>,
                   w: nat, h: nat, lab: nat, c: Point, x: nat, y: nat)
    requires |corners| == w * h && |cs| == w * h && |labels| == w * h
    requires Claims(corners, cs, labels, pts, w, h)
    requires 0 < lab < |pts| && x < w && y < h && Get(labels, w, h, x, y) == lab
    requires c.x < w && c.y < h && Get(cs, w, h, c.x, c.y) && Near(c.x, c.y, x, y, 1)
    ensures Claims(corners, Set(cs, w, h, c.x, c.y, false), labels, pts[lab := pts[lab] + [c]], w, h)
  {
    var cs' := Set(cs, w, h, c.x, c.y, false);
    var pts' := pts[lab := pts[lab] + [c]];
    BagExtend(pts, lab, [c]);
    assert c !in Bag(pts);
    forall p | p in Bag(pts')
      ensures p.x < w && p.y < h && Get(corners, w, h, p.x, p.y) && !Get(cs', w, h, p.x, p.y)
      ensures Bag(pts')[p] == 1
    {
      if p != c {
        assert p in Bag(pts);
      }
    }
    forall k, p | 0 <= k < |pts'| && p in pts'[k] ensures ClaimedBy(labels, w, h, k, p) {
      if k == lab && p == c {
        assert Get(labels, w, h, x, y) == k && Near(p.x, p.y, x, y, 1);
      } else {
        assert p in pts[k];
      }
    }
  }

  /** The set S of labels is closed under meeting: whenever two labelled
      pixels lie within distance two of each other and the first one's
      label is in S, so is the second one's. */
  ghost predicate JoinClosed(labels: seq<int>, w: nat, h: nat, S: set<int>)
    requires |labels| == w * h
  {
    forall x1: nat, y1: nat, x2: nat, y2: nat |
      x1 < w && y1 < h && x2 < w && y2 < h && Near(x2, y2, x1, y1, 2) &&
      Get(labels, w, h, x1, y1) != 0 && Get(labels, w, h, x2, y2) != 0 &&
      Get(labels, w, h, x1, y1) in S ::
      Get(labels, w, h, x2, y2) in S
  }

  /** The converse of Linked: two labels share a set of the partition only
      when every closed set of labels holding the one holds the other, that
      is, only when a chain of labelled pixels, each within distance two of
      the next, joins a pixel of the one to a pixel of the other. */
  ghost predicate Separated(labels: seq<int>, root: seq<nat>, w: nat, h: nat)
    requires |labels| == w * h
  {
    forall k1, k2, S | 0 <= k1 < |root| && 0 <= k2 < |root| && root[k1] == root[k2] &&
      JoinClosed(labels, w, h, S) && k1 in S :: k2 in S
  }

  /** Labelling a blank pixel only adds meetings, so fewer sets stay closed. */
  lemma SeparatedGrow(labels: seq<int>, root: seq<nat>, w: nat, h: nat, x: nat, y: nat, lab: int)
    requires |labels| == w * h && x < w && y < h && Get(labels, w, h, x, y) == 0
    requires Separated(labels, root, w, h)
    ensures Separated(Set(labels, w, h, x, y, lab), root, w, h)
  {
    var labels' := Set(labels, w, h, x, y, lab);
    forall S | JoinClosed(labels', w, h, S) ensures JoinClosed(labels, w, h, S) {
      forall x1: nat, y1: nat, x2: nat, y2: nat |
        x1 < w && y1 < h && x2 < w && y2 < h && Near(x2, y2, x1, y1, 2) &&
        Get(labels, w, h, x1, y1) != 0 && Get(labels, w, h, x2, y2) != 0 &&
        Get(labels, w, h, x1, y1) in S
        ensures Get(labels, w, h, x2, y2) in S
      {
        assert Get(labels', w, h, x1, y1) == Get(labels, w, h, x1, y1);
        assert Get(labels', w, h, x2, y2) == Get(labels, w, h, x2, y2);
      }
    }
  }

  /** Merging the sets of a and b, whose labels sit on two pixels within
      distance two, keeps the partition separated. */
  lemma SeparatedUnite(labels: seq<int>, r0: seq<nat>, r1: seq<nat>, w: nat, h: nat,
                       a: nat, b: nat, x1: nat, y1: nat, x2: nat, y2: nat)
    requires |labels| == w * h && x1 < w && y1 < h && x2 < w && y2 < h && Near(x2, y2, x1, y1, 2)
    requires a != 0 && b != 0 && Get(labels, w, h, x1, y1) == a && Get(labels, w, h, x2, y2) == b
    requires Separated(labels, r0, w, h) && UnitedBy(r0, r1, a, b)
    ensures Separated(labels, r1, w, h)
  {
    forall k1, k2, S | 0 <= k1 < |r1| && 0 <= k2 < |r1| && r1[k1] == r1[k2] &&
      JoinClosed(labels, w, h, S) && k1 in S
      ensures k2 in S
    {
      assert a in S <==> b in S by {
        assert Near(x1, y1, x2, y2, 2);
      }
      var m1 := r0[k1] == r0[a] || r0[k1] == r0[b];
      var m2 := r0[k2] == r0[a] || r0[k2] == r0[b];
      if m1 && m2 {
        if r0[k1] == r0[a] {
          assert a in S;
        } else {
          assert b in S;
        }
      } else if !m1 && !m2 {
        assert r0[k1] == r0[k2];
      } else {
        assert false;
      }
    }
  }

  /** Opening a singleton set for a new label keeps the partition separated. */
  lemma SeparatedPush(labels: seq<int>, root: seq<nat>, w: nat, h: nat)
    requires |labels| == w * h && Separated(labels, root, w, h)
    requires forall i | 0 <= i < |root| :: root[i] < |root|
    ensures Separated(labels, root + [|root|], w, h)
  {
  }

  /** The labels as they will be once (x, y) takes the label id found so far. */
  ghost function Pending(labels: seq<int>, w: nat, h: nat, x: nat, y: nat, id: Option<nat>): (r: seq<int>)
    requires |labels| == w * h && x < w && y < h
    ensures |r| == w * h
  {
    if id.Some? then Set(labels, w, h, x, y, id.value) else labels
  }

  /** Every cell of the 5x5 window around (x, y) is unlabelled. */
  ghost predicate WindowEmpty(labels: seq<int>, w: nat, h: nat, x: nat, y: nat)
    requires |labels| == w * h && Inner(w, h, x, y)
  {
    forall xx: nat, yy: nat | Near(xx, yy, x, y, 2) :: Get(labels, w, h, xx, yy) == 0
  }

  /** No pixel of the 5x5 window around (x, y) that precedes it is labelled. */
  ghost predicate EarlierBlank(labels: seq<int>, w: nat, h: nat, x: nat, y: nat)
    requires |labels| == w * h && Inner(w, h, x, y)
  {
    forall xx: nat, yy: nat | Near(xx, yy, x, y, 2) && Before(xx, yy, x, y) :: Get(labels, w, h, xx, yy) == 0
  }

  /** No pixel before (x, y) carries the label of (x, y). */
  ghost predicate Opens(labels: seq<int>, w: nat, h: nat, x: nat, y: nat)
    requires |labels| == w * h && x < w && y < h
  {
    forall xx: nat, yy: nat | xx < w && yy < h && Before(xx, yy, x, y) ::
      Get(labels, w, h, xx, yy) != Get(labels, w, h, x, y)
  }

  /** The labelling the raster pass produces: every labelled pixel carries
      the label of the first labelled pixel of its 5x5 window, and opens a
      label no earlier pixel carries exactly when no earlier pixel of that
      window is labelled. */
  ghost predicate RasterLabels(labels: seq<int>, w: nat, h: nat)
    requires |labels| == w * h
  {
    forall x: nat, y: nat | Inner(w, h, x, y) && Get(labels, w, h, x, y) != 0 ::
      && (forall fx: nat, fy: nat | FirstLabel(labels, w, h, x, y, fx, fy) ::
            Get(labels, w, h, fx, fy) == Get(labels, w, h, x, y))
      && (Opens(labels, w, h, x, y) <==> EarlierBlank(labels, w, h, x, y))
  }

  /** Two cells are equal when neither precedes the other. */
  lemma BeforeTotal(x1: nat, y1: nat, x2: nat, y2: nat)
    requires !Before(x1, y1, x2, y2) && !Before(x2, y2, x1, y1)
    ensures x1 == x2 && y1 == y2
  {
  }

  /** The first labelled cell of a window is unique. */
  lemma FirstLabelUnique(labels: seq<int>, w: nat, h: nat, x: nat, y: nat, fx: nat, fy: nat, gx: nat, gy: nat)
    requires |labels| == w * h && Inner(w, h, x, y)
    requires FirstLabel(labels, w, h, x, y, fx, fy) && FirstLabel(labels, w, h, x, y, gx, gy)
    ensures fx == gx && fy == gy
  {
    if !Before(fx, fy, gx, gy) && !Before(gx, gy, fx, fy) {
      BeforeTotal(fx, fy, gx, gy);
    }
  }

  /** Labelling (x, y) keeps the raster labelling of every pixel before it. */
  lemma RasterKeep(edges: seq<bool>, labels: seq<int>, w: nat, h: nat, x: nat, y: nat, lab: int,
                   px: nat, py: nat)
    requires |edges| == w * h && |labels| == w * h && Inner(w, h, x, y)
    requires Labelled(edges, labels, w, h, x, y) && RasterLabels(labels, w, h)
    requires Inner(w, h, px, py) && Get(labels, w, h, px, py) != 0
    ensures var labels' := Set(labels, w, h, x, y, lab);
      && (forall gx: nat, gy: nat | FirstLabel(labels', w, h, px, py, gx, gy) ::
            Get(labels', w, h, gx, gy) == Get(labels', w, h, px, py))
      && (Opens(labels', w, h, px, py) <==> EarlierBlank(labels', w, h, px, py))
  {
    var labels' := Set(labels, w, h, x, y, lab);
    assert Before(px, py, x, y);
    forall gx: nat, gy: nat | FirstLabel(labels', w, h, px, py, gx, gy)
      ensures Get(labels', w, h, gx, gy) == Get(labels', w, h, px, py)
    {
      if gx != x || gy != y {
        assert FirstLabel(labels, w, h, px, py, gx, gy);
      }
    }
    assert Opens(labels', w, h, px, py) <==> Opens(labels, w, h, px, py);
    assert EarlierBlank(labels', w, h, px, py) <==> EarlierBlank(labels, w, h, px, py);
  }

  /** Labelling (x, y) with the first label of its window, or with a label
      no pixel carries when the window is empty, makes (x, y) follow the
      raster labelling. */
  lemma RasterNew(edges: seq<bool>, labels: seq<int>, w: nat, h: nat, x: nat, y: nat, lab: int,
                  blank: bool, fx: nat, fy: nat)
    requires |edges| == w * h && |labels| == w * h && Inner(w, h, x, y)
    requires Labelled(edges, labels, w, h, x, y) && lab != 0
    requires blank ==> WindowEmpty(labels, w, h, x, y)
    requires blank ==> forall xx: nat, yy: nat | xx < w && yy < h :: Get(labels, w, h, xx, yy) != lab
    requires !blank ==> FirstLabel(labels, w, h, x, y, fx, fy) && lab == Get(labels, w, h, fx, fy)
    ensures var labels' := Set(labels, w, h, x, y, lab);
      && (forall gx: nat, gy: nat | FirstLabel(labels', w, h, x, y, gx, gy) :: Get(labels', w, h, gx, gy) == lab)
      && (Opens(labels', w, h, x, y) <==> EarlierBlank(labels', w, h, x, y))
  {
    var labels' := Set(labels, w, h, x, y, lab);
    if blank {
      forall gx: nat, gy: nat | FirstLabel(labels', w, h, x, y, gx, gy) ensures Get(labels', w, h, gx, gy) == lab {
        assert gx == x && gy == y;
      }
      assert Opens(labels', w, h, x, y);
      assert EarlierBlank(labels', w, h, x, y);
    } else {
      assert Before(fx, fy, x, y);
      assert Get(labels', w, h, fx, fy) == lab;
      assert FirstLabel(labels', w, h, x, y, fx, fy);
      forall gx: nat, gy: nat | FirstLabel(labels', w, h, x, y, gx, gy) ensures Get(labels', w, h, gx, gy) == lab {
        FirstLabelUnique(labels', w, h, x, y, fx, fy, gx, gy);
      }
      assert !Opens(labels', w, h, x, y);
      assert !EarlierBlank(labels', w, h, x, y);
    }
  }

  /** Labelling (x, y) as the raster pass does keeps the raster labelling. */
  lemma RasterStep(edges: seq<bool>, labels: seq<int>, w: nat, h: nat, x: nat, y: nat, lab: int,
                   blank: bool, fx: nat, fy: nat)
    requires |edges| == w * h && |labels| == w * h && Inner(w, h, x, y)
    requires Labelled(edges, labels, w, h, x, y) && RasterLabels(labels, w, h) && lab != 0
    requires blank ==> WindowEmpty(labels, w, h, x, y)
    requires blank ==> forall xx: nat, yy: nat | xx < w && yy < h :: Get(labels, w, h, xx, yy) != lab
    requires !blank ==> FirstLabel(labels, w, h, x, y, fx, fy) && lab == Get(labels, w, h, fx, fy)
    ensures RasterLabels(Set(labels, w, h, x, y, lab), w, h)
  {
    var labels' := Set(labels, w, h, x, y, lab);
    RasterNew(edges, labels, w, h, x, y, lab, blank, fx, fy);
    forall px: nat, py: nat | Inner(w, h, px, py) && Get(labels', w, h, px, py) != 0
      ensures && (forall gx: nat, gy: nat | FirstLabel(labels', w, h, px, py, gx, gy) ::
                    Get(labels', w, h, gx, gy) == Get(labels', w, h, px, py))
              && (Opens(labels', w, h, px, py) <==> EarlierBlank(labels', w, h, px, py))
    {
      if px != x || py != y {
        RasterKeep(edges, labels, w, h, x, y, lab, px, py);
      }
    }
  }

  /** Every corner pixel cleared from the working mask has been claimed. */
  ghost predicate ClearedClaimed(corners: seq<bool>, cs: seq<bool>, pts: seq<seq<Point>>, w: nat, h: nat)
    requires |corners| == w * h && |cs| == w * h
  {
    forall x: nat, y: nat | x < w && y < h && Get(corners, w, h, x, y) && !Get(cs, w, h, x, y) ::
      Point(x, y) in Bag(pts)
  }

  /** Every labelled pixel with a corner pixel in its 3x3 neighbourhood has
      a claimed point in that neighbourhood. */
  ghost predicate Covered(corners: seq<bool>, labels: seq<int>, pts: seq<seq<Point>>, w: nat, h: nat)
    requires |corners| == w * h && |labels| == w * h
  {
    forall px: nat, py: nat, cx: nat, cy: nat |
      px < w && py < h && cx < w && cy < h && Get(labels, w, h, px, py) != 0 &&
      Near(cx, cy, px, py, 1) && Get(corners, w, h, cx, cy) ::
      exists q | q in Bag(pts) :: Near(q.x, q.y, px, py, 1)
  }

  /** c is the first corner pixel still set in the 3x3 neighbourhood of
      (x, y), in row-major order. */
  ghost predicate FirstCorner(cs: seq<bool>, w: nat, h: nat, x: nat, y: nat, c: Point)
    requires |cs| == w * h
  {
    && c.x < w && c.y < h && Near(c.x, c.y, x, y, 1) && Get(cs, w, h, c.x, c.y)
    && forall xx: nat, yy: nat | xx < w && yy < h && Near(xx, yy, x, y, 1) && Before(xx, yy, c.x, c.y) ::
         !Get(cs, w, h, xx, yy)
  }

  /** The first set corner of a neighbourhood is unique. */
  lemma FirstCornerUnique(cs: seq<bool>, w: nat, h: nat, x: nat, y: nat, c: Point, d: Point)
    requires |cs| == w * h && FirstCorner(cs, w, h, x, y, c) && FirstCorner(cs, w, h, x, y, d)
    ensures c == d
  {
    if !Before(c.x, c.y, d.x, d.y) && !Before(d.x, d.y, c.x, c.y) {
      BeforeTotal(c.x, c.y, d.x, d.y);
    }
  }

  /** Labelling (x, y) and claiming the first set corner of its
      neighbourhood, if any, keeps every cleared corner claimed and every
      labelled pixel next to a corner covered. */
  lemma CoverStep(corners: seq<bool>, cs: seq<bool>, labels: seq<int>, pts: seq<seq<Point>>,
                  cs': seq<bool>, pts': seq<seq<Point>>, w: nat, h: nat, x: nat, y: nat, lab: int,
                  corner: Option<Point>)
    requires |corners| == w * h && |cs| == w * h && |labels| == w * h && x < w && y < h
    requires ClearedClaimed(corners, cs, pts, w, h) && Covered(corners, labels, pts, w, h)
    requires Get(labels, w, h, x, y) == 0 && Bag(pts) <= Bag(pts')
    requires corner.None? ==> cs' == cs
    requires corner.None? ==>
      forall xx: nat, yy: nat | xx < w && yy < h && Near(xx, yy, x, y, 1) :: !Get(cs, w, h, xx, yy)
    requires corner.Some? ==> var c := corner.value;
      c.x < w && c.y < h && Near(c.x, c.y, x, y, 1) && c in Bag(pts') &&
      cs' == Set(cs, w, h, c.x, c.y, false)
    ensures |cs'| == w * h
    ensures ClearedClaimed(corners, cs', pts', w, h)
    ensures Covered(corners, Set(labels, w, h, x, y, lab), pts', w, h)
  {
    var labels' := Set(labels, w, h, x, y, lab);
    forall cx: nat, cy: nat | cx < w && cy < h && Get(corners, w, h, cx, cy) && !Get(cs', w, h, cx, cy)
      ensures Point(cx, cy) in Bag(pts')
    {
      if corner.None? || corner.value != Point(cx, cy) {
        assert Point(cx, cy) in Bag(pts);
      }
    }
    forall px: nat, py: nat, cx: nat, cy: nat |
      px < w && py < h && cx < w && cy < h && Get(labels', w, h, px, py) != 0 &&
      Near(cx, cy, px, py, 1) && Get(corners, w, h, cx, cy)
      ensures exists q | q in Bag(pts') :: Near(q.x, q.y, px, py, 1)
    {
      if px != x || py != y {
        var q :| q in Bag(pts) && Near(q.x, q.y, px, py, 1);
        assert q in Bag(pts');
      } else if corner.Some? {
        assert corner.value in Bag(pts');
      } else {
        assert Point(cx, cy) in Bag(pts);
        assert Point(cx, cy) in Bag(pts');
      }
    }
  }

  /** The facts the pass keeps beside PassState: the raster labelling, the
      converse of Linked, and the completeness of the claims. */
  ghost predicate Traced(corners: seq<bool>, cs: seq<bool>, labels: seq<int>, pts: seq<seq<Point>>,
                         root: seq<nat>, w: nat, h: nat)
    requires |corners| == w * h && |cs| == w * h && |labels| == w * h
  {
    && RasterLabels(labels, w, h)
    && Separated(labels, root, w, h)
    && ClearedClaimed(corners, cs, pts, w, h)
    && Covered(corners, labels, pts, w, h)
  }

  /** Merging sets of the partition keeps labels linked. */
  lemma LinkedCoarser(labels: seq<int>, r1: seq<nat>, r2: seq<nat>, w: nat, h: nat)
    requires |labels| == w * h && LabelsBelow(labels, w, h, |r1|)
    requires Linked(labels, r1, w, h) && Coarser(r1, r2)
    ensures LabelsBelow(labels, w, h, |r2|) && Linked(labels, r2, w, h)
  {
  }

  /** Appending a fresh singleton set keeps labels linked. */
  lemma LinkedPush(labels: seq<int>, root: seq<nat>, w: nat, h: nat, n: nat)
    requires |labels| == w * h && LabelsBelow(labels, w, h, |root|)
    requires Linked(labels, root, w, h)
    ensures LabelsBelow(labels, w, h, |root| + 1) && Linked(labels, root + [n], w, h)
  {
  }

  /** Giving (x, y) a label whose set holds every label of its 5x5 window
      keeps labels linked. */
  lemma LinkedStep(labels: seq<int>, root: seq<nat>, w: nat, h: nat, x: nat, y: nat, lab: nat)
    requires |labels| == w * h && Inner(w, h, x, y) && Get(labels, w, h, x, y) == 0
    requires LabelsBelow(labels, w, h, |root|) && 0 < lab < |root|
    requires Linked(labels, root, w, h)
    requires forall xx: nat, yy: nat | Near(xx, yy, x, y, 2) && Get(labels, w, h, xx, yy) != 0 ::
      root[Get(labels, w, h, xx, yy)] == root[lab]
    ensures LabelsBelow(Set(labels, w, h, x, y, lab), w, h, |root|)
    ensures Linked(Set(labels, w, h, x, y, lab), root, w, h)
  {
  }

  /** The scan of the 5x5 window around (x, y) has visited the cells before
      (cx, cy): id is the first nonzero label met, at (fx, fy), and every
      nonzero label met is in id's set. */
  ghost predicate Scanned(root: seq<nat>, labels: seq<int>, w: nat, h: nat, x: nat, y: nat,
                          cx: nat, cy: nat, id: Option<nat>, fx: nat, fy: nat)
    requires |labels| == w * h && Inner(w, h, x, y) && LabelsBelow(labels, w, h, |root|)
  {
    && (id.None? <==>
        forall xx: nat, yy: nat | Near(xx, yy, x, y, 2) && Before(xx, yy, cx, cy) ::
          Get(labels, w, h, xx, yy) == 0)
    && (id.Some? ==>
        && FirstLabel(labels, w, h, x, y, fx, fy)
        && Before(fx, fy, cx, cy)
        && id.value == Get(labels, w, h, fx, fy)
        && forall xx: nat, yy: nat | Near(xx, yy, x, y, 2) && Before(xx, yy, cx, cy) && Get(labels, w, h, xx, yy) != 0 ::
             root[Get(labels, w, h, xx, yy)] == root[id.value])
  }

  /** (fx, fy) holds the first nonzero label of the 5x5 window around (x, y)
      in row-major order. */
  ghost predicate FirstLabel(labels: seq<int>, w: nat, h: nat, x: nat, y: nat, fx: nat, fy: nat)
    requires |labels| == w * h && Inner(w, h, x, y)
  {
    && Near(fx, fy, x, y, 2)
    && Get(labels, w, h, fx, fy) != 0
    && forall xx: nat, yy: nat | Near(xx, yy, x, y, 2) && Before(xx, yy, fx, fy) :: Get(labels, w, h, xx, yy) == 0
  }

  /** Passing a zero label keeps the scan state. */
  lemma ScanZero(root: seq<nat>, labels: seq<int>, w: nat, h: nat, x: nat, y: nat,
                 cx: nat, cy: nat, id: Option<nat>, fx: nat, fy: nat)
    requires |labels| == w * h && Inner(w, h, x, y) && LabelsBelow(labels, w, h, |root|)
    requires Near(cx, cy, x, y, 2) && Get(labels, w, h, cx, cy) == 0
    requires Scanned(root, labels, w, h, x, y, cx, cy, id, fx, fy)
    ensures Scanned(root, labels, w, h, x, y, cx + 1, cy, id, fx, fy)
  {
  }

  /** The first nonzero label met becomes the scan's label. */
  lemma ScanFirst(root: seq<nat>, labels: seq<int>, w: nat, h: nat, x: nat, y: nat, cx: nat, cy: nat)
    requires |labels| == w * h && Inner(w, h, x, y) && LabelsBelow(labels, w, h, |root|)
    requires Near(cx, cy, x, y, 2) && Get(labels, w, h, cx, cy) != 0
    requires Scanned(root, labels, w, h, x, y, cx, cy, None, 0, 0)
    ensures Scanned(root, labels, w, h, x, y, cx + 1, cy, Some(Get(labels, w, h, cx, cy) as nat), cx, cy)
  {
  }

  /** A later nonzero label, once united with the scan's label in a coarser
      partition, keeps the scan state. */
  lemma ScanUnite(root: seq<nat>, root': seq<nat>, labels: seq<int>, w: nat, h: nat, x: nat, y: nat,
                  cx: nat, cy: nat, i: nat, fx: nat, fy: nat)
    requires |labels| == w * h && Inner(w, h, x, y) && LabelsBelow(labels, w, h, |root|)
    requires Near(cx, cy, x, y, 2) && Get(labels, w, h, cx, cy) != 0
    requires Scanned(root, labels, w, h, x, y, cx, cy, Some(i), fx, fy)
    requires Coarser(root, root') && i < |root|
    requires root'[i] == root'[Get(labels, w, h, cx, cy)]
    ensures Scanned(root', labels, w, h, x, y, cx + 1, cy, Some(i), fx, fy)
  {
    forall xx: nat, yy: nat | Near(xx, yy, x, y, 2) && Before(xx, yy, cx + 1, cy) && Get(labels, w, h, xx, yy) != 0
      ensures root'[Get(labels, w, h, xx, yy)] == root'[i]
    {
      if Before(xx, yy, cx, cy) {
        assert root[Get(labels, w, h, xx, yy)] == root[i];
      }
    }
  }

  /** The end of a window row is the start of the next. */
  lemma ScanRow(root: seq<nat>, labels: seq<int>, w: nat, h: nat, x: nat, y: nat,
                cy: nat, id: Option<nat>, fx: nat, fy: nat)
    requires |labels| == w * h && Inner(w, h, x, y) && LabelsBelow(labels, w, h, |root|)
    requires Scanned(root, labels, w, h, x, y, x + 3, cy, id, fx, fy)
    ensures Scanned(root, labels, w, h, x, y, x - 2, cy + 1, id, fx, fy)
  {
  }

  /** Visits the cell (cx, cy) of the 5x5 window around (x, y): a nonzero
      label becomes id when none was met yet and is united with id
      otherwise. */
  method ScanCell(uf: UnionFind, labels: seq<int>, w: nat, h: nat, x: nat, y: nat, cx: nat, cy: nat,
                  id: Option<nat>, ghost fx: nat, ghost fy: nat)
    returns (id': Option<nat>, ghost fx': nat, ghost fy': nat)
    requires uf.Valid() && |labels| == w * h && Inner(w, h, x, y)
    requires LabelsBelow(labels, w, h, |uf.parent|) && Near(cx, cy, x, y, 2)
    requires Scanned(uf.root, labels, w, h, x, y, cx, cy, id, fx, fy)
    requires Get(labels, w, h, x, y) == 0 && Separated(Pending(labels, w, h, x, y, id), uf.root, w, h)
    modifies uf
    ensures uf.Valid() && |uf.parent| == old(|uf.parent|) && Coarser(old(uf.root), uf.root)
    ensures Scanned(uf.root, labels, w, h, x, y, cx + 1, cy, id', fx', fy')
    ensures Separated(Pending(labels, w, h, x, y, id'), uf.root, w, h)
  {
    id', fx', fy' := id, fx, fy;
    var nid := Get(labels, w, h, cx, cy);
    if nid == 0 {
      CoarserRefl(uf.root);
      ScanZero(uf.root, labels, w, h, x, y, cx, cy, id, fx, fy);
    } else {
      match id
      case Some(i) =>
        ghost var r0 := uf.root;
        uf.Unite(i, nid);
        ScanUnite(r0, uf.root, labels, w, h, x, y, cx, cy, i, fx, fy);
        ghost var pending := Set(labels, w, h, x, y, i);
        assert Get(pending, w, h, cx, cy) == nid;
        SeparatedUnite(pending, r0, uf.root, w, h, i, nid, x, y, cx, cy);
      case None =>
        CoarserRefl(uf.root);
        ScanFirst(uf.root, labels, w, h, x, y, cx, cy);
        SeparatedGrow(labels, uf.root, w, h, x, y, nid);
        id', fx', fy' := Some(nid), cx, cy;
    }
  }

  /** Scans row yy of the 5x5 window around (x, y), cell by cell. */
  method ScanLine(uf: UnionFind, labels: seq<int>, w: nat, h: nat, x: nat, y: nat, yy: nat,
                  id: Option<nat>, ghost fx: nat, ghost fy: nat)
    returns (id': Option<nat>, ghost fx': nat, ghost fy': nat)
    requires uf.Valid() && |labels| == w * h && Inner(w, h, x, y) && y - 2 <= yy <= y + 2
    requires LabelsBelow(labels, w, h, |uf.parent|)
    requires Scanned(uf.root, labels, w, h, x, y, x - 2, yy, id, fx, fy)
    requires Get(labels, w, h, x, y) == 0 && Separated(Pending(labels, w, h, x, y, id), uf.root, w, h)
    modifies uf
    ensures uf.Valid() && |uf.parent| == old(|uf.parent|) && Coarser(old(uf.root), uf.root)
    ensures Scanned(uf.root, labels, w, h, x, y, x - 2, yy + 1, id', fx', fy')
    ensures Separated(Pending(labels, w, h, x, y, id'), uf.root, w, h)
  {
    id', fx', fy' := id, fx, fy;
    CoarserRefl(uf.root);
    var xx := x - 2;
    while xx <= x + 2
      invariant x - 2 <= xx <= x + 3
      invariant uf.Valid() && |uf.parent| == old(|uf.parent|) && Coarser(old(uf.root), uf.root)
      invariant Scanned(uf.root, labels, w, h, x, y, xx, yy, id', fx', fy')
      invariant Separated(Pending(labels, w, h, x, y, id'), uf.root, w, h)
    {
      ghost var r0 := uf.root;
      id', fx', fy' := ScanCell(uf, labels, w, h, x, y, xx, yy, id', fx', fy');
      CoarserTrans(old(uf.root), r0, uf.root);
      xx := xx + 1;
    }
    ScanRow(uf.root, labels, w, h, x, y, yy, id', fx', fy');
  }

  /** Scans the 5x5 window around the edge pixel (x, y): the first nonzero
      label becomes id and every later nonzero label is united with it.
      None means the window holds no label. */
  method LookBack(uf: UnionFind, labels: seq<int>, w: nat, h: nat, x: nat, y: nat)
    returns (id: Option<nat>, ghost fx: nat, ghost fy: nat)
    requires uf.Valid() && |labels| == w * h && Inner(w, h, x, y)
    requires LabelsBelow(labels, w, h, |uf.parent|)
    requires Get(labels, w, h, x, y) == 0 && Separated(labels, uf.root, w, h)
    modifies uf
    ensures uf.Valid() && |uf.parent| == old(|uf.parent|)
    ensures Coarser(old(uf.root), uf.root)
    ensures Separated(Pending(labels, w, h, x, y, id), uf.root, w, h)
    ensures id.None? <==> forall xx: nat, yy: nat | Near(xx, yy, x, y, 2) :: Get(labels, w, h, xx, yy) == 0
    ensures id.Some? ==> FirstLabel(labels, w, h, x, y, fx, fy) && id.value == Get(labels, w, h, fx, fy)
    ensures id.Some? ==> 0 < id.value < |uf.parent|
    ensures id.Some? ==>
      forall xx: nat, yy: nat | Near(xx, yy, x, y, 2) && Get(labels, w, h, xx, yy) != 0 ::
        uf.root[Get(labels, w, h, xx, yy)] == uf.root[id.value]
  {
    id, fx, fy := None, 0, 0;
    CoarserRefl(uf.root);
    var yy := y - 2;
    while yy <= y + 2
      invariant y - 2 <= yy <= y + 3
      invariant uf.Valid() && |uf.parent| == old(|uf.parent|) && Coarser(old(uf.root), uf.root)
      invariant Scanned(uf.root, labels, w, h, x, y, x - 2, yy, id, fx, fy)
      invariant Separated(Pending(labels, w, h, x, y, id), uf.root, w, h)
    {
      ghost var r0 := uf.root;
      id, fx, fy := ScanLine(uf, labels, w, h, x, y, yy, id, fx, fy);
      CoarserTrans(old(uf.root), r0, uf.root);
      yy := yy + 1;
    }
  }

  /** Returns the first corner pixel still set in the 3x3 neighbourhood of
      (x, y), in row-major order, or None when there is none. */
  method ClaimCorner(cs: seq<bool>, w: nat, h: nat, x: nat, y: nat) returns (corner: Option<Point>)
    requires |cs| == w * h && 1 <= x && x + 1 < w && 1 <= y && y + 1 < h
    ensures corner.None? <==> forall xx: nat, yy: nat | Near(xx, yy, x, y, 1) :: !Get(cs, w, h, xx, yy)
    ensures corner.Some? ==>
      var c := corner.value;
      && Near(c.x, c.y, x, y, 1) && Get(cs, w, h, c.x, c.y)
      && forall xx: nat, yy: nat | Near(xx, yy, x, y, 1) && Before(xx, yy, c.x, c.y) :: !Get(cs, w, h, xx, yy)
  {
    corner := None;
    var yy := y - 1;
    while yy <= y + 1
      invariant y - 1 <= yy <= y + 2
      invariant corner.None?
      invariant forall xx: nat, yy': nat | Near(xx, yy', x, y, 1) && yy' < yy :: !Get(cs, w, h, xx, yy')
    {
      var xx := x - 1;
      while xx <= x + 1
        invariant x - 1 <= xx <= x + 2
        invariant forall xx': nat, yy': nat | Near(xx', yy', x, y, 1) && Before(xx', yy', xx, yy) ::
          !Get(cs, w, h, xx', yy')
      {
        if Get(cs, w, h, xx, yy) {
          corner := Some(Point(xx, yy));
          break;
        }
        xx := xx + 1;
      }
      if corner.Some? {
        break;
      }
      yy := yy + 1;
    }
  }

  /** The points of the lists k in [1, n) whose label has representative r,
      in label order. */
  ghost function Gather(pts: seq<seq<Point>>, root: seq<nat>, r: nat, n: nat): seq<Point>
    requires n <= |pts| && n <= |root|
  {
    if n <= 1 then []
    else Gather(pts, root, r, n - 1) + (if root[n - 1] == r then pts[n - 1] else [])
  }

  /** For every representative r, the points of all labels in r's set. */
  ghost function Merge(pts: seq<seq<Point>>, root: seq<nat>): (m: seq<seq<Point>>)
    requires |pts| == |root|
    ensures |m| == |root|
  {
    seq(|root|, r requires 0 <= r < |root| => Gather(pts, root, r, |root|))
  }

  /** A point is gathered for r exactly when some label in [1, n) of r's set
      holds it. */
  lemma {:induction false} GatherMembers(pts: seq<seq<Point>>, root: seq<nat>, r: nat, n: nat, p: Point)
    requires n <= |pts| && n <= |root|
    ensures p in Gather(pts, root, r, n) <==> exists k :: 1 <= k < n && root[k] == r && p in pts[k]
    decreases n
  {
    if n > 1 {
      GatherMembers(pts, root, r, n - 1, p);
      if root[n - 1] == r && p in pts[n - 1] {
        assert p in Gather(pts, root, r, n);
      }
    }
  }

  /** Every point of s was claimed by a label whose representative is r. */
  ghost predicate GroupOf(pts: seq<seq<Point>>, root: seq<nat>, r: nat, s: seq<Point>)
    requires |pts| == |root|
  {
    forall p | p in s :: exists k :: 1 <= k < |root| && root[k] == r && p in pts[k]
  }

  /** Every shape is one group: all its points were claimed by labels of a
      single set of the partition. */
  lemma ShapeIsGroup(pts: seq<seq<Point>>, root: seq<nat>, s: seq<Point>)
    requires |pts| == |root| && s in NonEmpty(Merge(pts, root))
    ensures exists r :: 0 <= r < |root| && GroupOf(pts, root, r, s)
  {
    var m := Merge(pts, root);
    var r :| 0 <= r < |m| && m[r] == s;
    forall p | p in s ensures exists k :: 1 <= k < |root| && root[k] == r && p in pts[k] {
      GatherMembers(pts, root, r, |root|, p);
    }
    assert GroupOf(pts, root, r, s);
  }

  /** Keeping or dropping the head list of ss in front of what is kept of
      its tail keeps the points and the order. */
  lemma NonEmptyStep(ss: seq<seq<Point>>, rest: seq<seq<Point>>, r: seq<seq<Point>>)
    requires ss != [] && Bag(rest) == Bag(ss[1..]) && Subseq(rest, ss[1..])
    requires r == if ss[0] == [] then rest else [ss[0]] + rest
    ensures Bag(r) == Bag(ss) && Subseq(r, ss)
  {
    assert ss == [ss[0]] + ss[1..];
    BagConcat([ss[0]], ss[1..]);
    BagConcat([ss[0]], rest);
    BagAppend([], ss[0]);
    if ss[0] == [] {
      assert rest != [] ==> Subseq(rest, ss[1..]);
    } else {
      assert r[1..] == rest;
    }
  }

  /** The non-empty lists of ss, in order. */
  function NonEmpty(ss: seq<seq<Point>>): (r: seq<seq<Point>>)
    ensures forall s | s in r :: s != [] && s in ss
    ensures Subseq(r, ss)
    ensures Bag(r) == Bag(ss)
  {
    if ss == [] then []
    else
      var rest := NonEmpty(ss[1..]);
      var r := if ss[0] == [] then rest else [ss[0]] + rest;
      NonEmptyStep(ss, rest, r);
      r
  }

  /** The state the raster pass keeps before visiting (x, y): the labels,
      the partition, the per-label corner lists and the working corner mask. */
  ghost predicate PassState(uf: UnionFind, edges: seq<bool>, corners: seq<bool>, cs: seq<bool>,
                            labels: seq<int>, pts: seq<seq<Point>>, nextLabel: nat,
                            w: nat, h: nat, x: nat, y: nat)
    reads uf
  {
    && |edges| == w * h && |corners| == w * h && |cs| == w * h && |labels| == w * h
    && uf.Valid() && |uf.parent| == nextLabel + 1 == |pts|
    && Labelled(edges, labels, w, h, x, y)
    && LabelsBelow(labels, w, h, |uf.parent|)
    && Linked(labels, uf.root, w, h)
    && Claims(corners, cs, labels, pts, w, h)
  }

  /** Before the pass no pixel is labelled and nothing is claimed. */
  lemma StartState(edges: seq<bool>, corners: seq<bool>, w: nat, h: nat, root: seq<nat>)
    requires |edges| == w * h && |corners| == w * h && |root| > 0
    ensures var labels: seq<int> := seq(w * h, _ => 0);
      && Labelled(edges, labels, w, h, 2, 2)
      && LabelsBelow(labels, w, h, |root|)
      && Linked(labels, root, w, h)
      && Claims(corners, corners, labels, [[]], w, h)
  {
    var labels: seq<int> := seq(w * h, _ => 0);
    forall x: nat, y: nat | x < w && y < h ensures Get(labels, w, h, x, y) == 0 {
      IdxBelow(w, h, x, y);
    }
    BagAppend([], []);
    assert Bag([[]]) == multiset{};
  }

  /** Before the pass every label set is closed, every cleared corner is
      claimed and nothing is labelled. */
  lemma StartTraced(corners: seq<bool>, w: nat, h: nat)
    requires |corners| == w * h
    ensures Traced(corners, corners, seq(w * h, _ => 0), [[]], [0], w, h)
  {
    var labels: seq<int> := seq(w * h, _ => 0);
    forall x: nat, y: nat | x < w && y < h ensures Get(labels, w, h, x, y) == 0 {
      IdxBelow(w, h, x, y);
    }
  }

  /** One visit of the edge pixel (x, y): adopt the first label of its 5x5
      window (uniting the others with it) or open a new label, then claim
      the first corner left in its 3x3 neighbourhood for that label. */
  method LabelPixel(uf: UnionFind, edges: seq<bool>, corners: seq<bool>, cs: seq<bool>,
                    labels: seq<int>, pts: seq<seq<Point>>, nextLabel: nat, w: nat, h: nat, x: nat, y: nat)
    returns (cs': seq<bool>, labels': seq<int>, pts': seq<seq<Point>>, nextLabel': nat)
    requires PassState(uf, edges, corners, cs, labels, pts, nextLabel, w, h, x, y)
    requires Traced(corners, cs, labels, pts, uf.root, w, h)
    requires Inner(w, h, x, y) && Get(edges, w, h, x, y)
    modifies uf
    ensures PassState(uf, edges, corners, cs', labels', pts', nextLabel', w, h, x + 1, y)
    ensures Traced(corners, cs', labels', pts', uf.root, w, h)
    ensures WindowEmpty(labels, w, h, x, y) ==>
      nextLabel' == nextLabel + 1 && labels' == Set(labels, w, h, x, y, nextLabel')
    ensures !WindowEmpty(labels, w, h, x, y) ==> nextLabel' == nextLabel
    ensures !WindowEmpty(labels, w, h, x, y) ==>
      forall fx: nat, fy: nat | FirstLabel(labels, w, h, x, y, fx, fy) ::
        labels' == Set(labels, w, h, x, y, Get(labels, w, h, fx, fy))
    ensures var lab := Get(labels', w, h, x, y);
      var grown := if nextLabel' == nextLabel then pts else pts + [[]];
      && 0 < lab < |grown|
      && ((forall xx: nat, yy: nat | Near(xx, yy, x, y, 1) :: !Get(cs, w, h, xx, yy)) ==>
            cs' == cs && pts' == grown)
      && (forall c: Point | FirstCorner(cs, w, h, x, y, c) ::
            cs' == Set(cs, w, h, c.x, c.y, false) && pts' == grown[lab := grown[lab] + [c]])
  {
    var lab;
    lab, pts', nextLabel' := AssignLabel(uf, edges, corners, cs, labels, pts, nextLabel, w, h, x, y);
    labels' := Set(labels, w, h, x, y, lab);
    cs' := cs;
    var corner := ClaimCorner(cs, w, h, x, y);
    if corner.Some? {
      var c := corner.value;
      ClaimsTake(corners, cs, labels', pts', w, h, lab, c, x, y);
      BagExtend(pts', lab, [c]);
      pts' := pts'[lab := pts'[lab] + [c]];
      cs' := Set(cs, w, h, c.x, c.y, false);
      forall d: Point | FirstCorner(cs, w, h, x, y, d) ensures d == c {
        FirstCornerUnique(cs, w, h, x, y, c, d);
      }
    }
    CoverStep(corners, cs, labels, pts, cs', pts', w, h, x, y, lab, corner);
  }

  /** The labelling half of a visit: the label of the first labelled pixel
      of the 5x5 window, with the window's other labels united with it, or
      a new label with an empty point list when the window is empty. */
  method AssignLabel(uf: UnionFind, edges: seq<bool>, corners: seq<bool>, cs: seq<bool>,
                     labels: seq<int>, pts: seq<seq<Point>>, nextLabel: nat, w: nat, h: nat, x: nat, y: nat)
    returns (lab: nat, pts': seq<seq<Point>>, nextLabel': nat)
    requires PassState(uf, edges, corners, cs, labels, pts, nextLabel, w, h, x, y)
    requires Traced(corners, cs, labels, pts, uf.root, w, h)
    requires Inner(w, h, x, y) && Get(edges, w, h, x, y)
    modifies uf
    ensures Get(labels, w, h, x, y) == 0
    ensures PassState(uf, edges, corners, cs, Set(labels, w, h, x, y, lab), pts', nextLabel', w, h, x + 1, y)
    ensures RasterLabels(Set(labels, w, h, x, y, lab), w, h)
    ensures Separated(Set(labels, w, h, x, y, lab), uf.root, w, h)
    ensures Bag(pts') == Bag(pts) && ClearedClaimed(corners, cs, pts', w, h)
    ensures WindowEmpty(labels, w, h, x, y) ==>
      nextLabel' == nextLabel + 1 && lab == nextLabel' && pts' == pts + [[]]
    ensures !WindowEmpty(labels, w, h, x, y) ==> nextLabel' == nextLabel && pts' == pts
    ensures !WindowEmpty(labels, w, h, x, y) ==>
      forall fx: nat, fy: nat | FirstLabel(labels, w, h, x, y, fx, fy) :: lab == Get(labels, w, h, fx, fy)
  {
    ghost var r0 := uf.root;
    assert Get(labels, w, h, x, y) == 0;
    var id, fx, fy := LookBack(uf, labels, w, h, x, y);
    LinkedCoarser(labels, r0, uf.root, w, h);
    pts', nextLabel' := pts, nextLabel;
    if id.Some? {
      lab := id.value;
      forall gx: nat, gy: nat | FirstLabel(labels, w, h, x, y, gx, gy) ensures gx == fx && gy == fy {
        FirstLabelUnique(labels, w, h, x, y, fx, fy, gx, gy);
      }
    } else {
      nextLabel' := nextLabel + 1;
      LinkedPush(labels, uf.root, w, h, nextLabel');
      SeparatedPush(labels, uf.root, w, h);
      uf.Push(nextLabel');
      ClaimsAlloc(corners, cs, labels, pts', w, h);
      BagAppend(pts', []);
      pts' := pts' + [[]];
      lab := nextLabel';
      SeparatedGrow(labels, uf.root, w, h, x, y, lab);
    }
    RasterStep(edges, labels, w, h, x, y, lab, id.None?, fx, fy);
    LinkedStep(labels, uf.root, w, h, x, y, lab);
    LabelledMark(edges, labels, w, h, x, y, lab);
    ClaimsRelabel(corners, cs, labels, pts', w, h, x, y, lab);
  }

  /** Appending the list of label id to the slot of its representative
      extends every slot's gathering by one label. */
  lemma GatherStep(pts: seq<seq<Point>>, root: seq<nat>, merged: seq<seq<Point>>, merged': seq<seq<Point>>, id: nat)
    requires 1 <= id < |pts| == |root| == |merged| && root[id] < |merged|
    requires forall r | 0 <= r < |merged| :: merged[r] == Gather(pts, root, r, id)
    requires merged' == merged[root[id] := merged[root[id]] + pts[id]]
    ensures forall r | 0 <= r < |merged'| :: merged'[r] == Gather(pts, root, r, id + 1)
  {
  }

  /** Concatenates the corner lists of every label 1..nextLabel into the
      slot of its representative. */
  method MergeLabels(uf: UnionFind, pts: seq<seq<Point>>) returns (merged: seq<seq<Point>>)
    requires uf.Valid() && |uf.parent| == |pts| && pts[0] == []
    modifies uf
    ensures uf.Valid() && uf.root == old(uf.root)
    ensures merged == Merge(pts, uf.root)
    ensures Bag(merged) == Bag(pts)
  {
    merged := seq(|pts|, _ => []);
    BagEmpty(merged);
    var id: nat := 1;
    while id < |pts|
      invariant 1 <= id <= |pts|
      invariant uf.Valid() && uf.root == old(uf.root) && |uf.parent| == |pts|
      invariant |merged| == |pts|
      invariant forall r | 0 <= r < |merged| :: merged[r] == Gather(pts, uf.root, r, id)
      invariant Bag(merged) == Bag(pts[..id])
    {
      var r := uf.Find(id);
      GatherStep(pts, uf.root, merged, merged[r := merged[r] + pts[id]], id);
      BagExtend(merged, r, pts[id]);
      BagPrefix(pts, id);
      merged := merged[r := merged[r] + pts[id]];
      id := id + 1;
    }
    assert pts[..id] == pts;
  }

  /** What the raster pass makes of an edge mask and a corner mask, with
      the final labelling, partition and per-label corner lists:
      - exactly the edge pixels two cells clear of the border are labelled,
        each label names an element of the canonical partition roots;
      - the labels are those of the raster order (RasterLabels);
      - two labels share a set exactly when a chain of labelled pixels, each
        within distance two of the next, joins them (Linked, Separated);
      - every claimed point is a corner pixel claimed once, next to a pixel
        of its label, and every labelled pixel with a corner pixel in its
        3x3 neighbourhood has a claimed point there (Claimed, Covered);
      - the shapes are the non-empty merged lists and hold exactly the
        claimed points. */
  ghost predicate Extracted(edges: seq<bool>, corners: seq<bool>, w: nat, h: nat, shapes: seq<seq<Point>>,
                            labelling: seq<int>, roots: seq<nat>, claimed: seq<seq<Point>>)
    requires |edges| == w * h && |corners| == w * h
  {
    && |labelling| == w * h && |claimed| == |roots|
    && (forall x: nat, y: nat | x < w && y < h ::
          (Get(labelling, w, h, x, y) != 0) == (Get(edges, w, h, x, y) && Inner(w, h, x, y)))
    && LabelsBelow(labelling, w, h, |roots|) && Canonical(roots)
    && RasterLabels(labelling, w, h)
    && Linked(labelling, roots, w, h)
    && Separated(labelling, roots, w, h)
    && Claimed(corners, labelling, claimed, w, h)
    && Covered(corners, labelling, claimed, w, h)
    && shapes == NonEmpty(Merge(claimed, roots))
    && Bag(shapes) == Bag(claimed)
  }

  /** Labels the edge pixels, claims corners for them, merges the labels'
      corner lists by union-find set and returns the non-empty lists.  The
      ghost results expose the final labelling, partition and per-label
      corner lists. */
  method FindShapes(edges: seq<bool>, corners: seq<bool>, w: nat, h: nat)
    returns (shapes: seq<seq<Point>>, ghost labelling: seq<int>, ghost roots: seq<nat>,
             ghost claimed: seq<seq<Point>>)
    requires |edges| == w * h && |corners| == w * h
    requires h >= 2 && (h <= 4 || w >= 2)
    ensures Extracted(edges, corners, w, h, shapes, labelling, roots, claimed)
    ensures forall s | s in shapes :: s != []
    ensures forall i, p | 0 <= i < |shapes| && p in shapes[i] ::
      p.x < w && p.y < h && Get(corners, w, h, p.x, p.y)
  {
    var cs := corners;
    var labels: seq<int> := seq(w * h, _ => 0);
    var labelPts: seq<seq<Point>> := [[]];
    var nextLabel: nat := 0;
    var uf := new UnionFind();
    StartState(edges, corners, w, h, uf.root);
    StartTraced(corners, w, h);
    var y := 2;
    while y < h - 2
      invariant 2 <= y && (y <= h - 2 || y == 2)
      invariant PassState(uf, edges, corners, cs, labels, labelPts, nextLabel, w, h, 2, y)
      invariant Traced(corners, cs, labels, labelPts, uf.root, w, h)
    {
      var x := 2;
      while x < w - 2
        invariant 2 <= x && (x <= w - 2 || x == 2)
        invariant PassState(uf, edges, corners, cs, labels, labelPts, nextLabel, w, h, x, y)
        invariant Traced(corners, cs, labels, labelPts, uf.root, w, h)
      {
        if Get(edges, w, h, x, y) {
          cs, labels, labelPts, nextLabel := LabelPixel(uf, edges, corners, cs, labels, labelPts, nextLabel, w, h, x, y);
        } else {
          LabelledSkip(edges, labels, w, h, x, y);
        }
        x := x + 1;
      }
      LabelledRow(edges, labels, w, h, x, y);
      y := y + 1;
    }
    LabelledDone(edges, labels, w, h, y);
    labelling, roots, claimed := labels, uf.root, labelPts;
    WfCanonical(uf.parent, uf.height, uf.root, uf.depth);
    var merged := MergeLabels(uf, labelPts);
    shapes := NonEmpty(merged);
    ShapePoints(corners, labelling, claimed, shapes, w, h);
  }

  /** Every point of a shape is an in-bounds pixel of the corner mask, and
      no point occurs twice across all shapes. */
  lemma ShapePoints(corners: seq<bool>, labels: seq<int>, claimed: seq<seq<Point>>,
                    shapes: seq<seq<Point>>, w: nat, h: nat)
    requires |corners| == w * h && |labels| == w * h
    requires Claimed(corners, labels, claimed, w, h) && Bag(shapes) == Bag(claimed)
    ensures forall i, p | 0 <= i < |shapes| && p in shapes[i] ::
      p.x < w && p.y < h && Get(corners, w, h, p.x, p.y) && Bag(shapes)[p] == 1
  {
    forall i, p | 0 <= i < |shapes| && p in shapes[i]
      ensures p.x < w && p.y < h && Get(corners, w, h, p.x, p.y) && Bag(shapes)[p] == 1
    {
      BagMember(shapes, i, p);
    }
  }

  /** The key x + y, least at a quad's top-left corner and greatest at its
      bottom-right. */
  function SumKey(p: Point): int
  {
    p.x + p.y
  }

  /** The key y - x, least at a quad's top-right corner and greatest at its
      bottom-left. */
  function DiffKey(p: Point): int
  {
    p.y - p.x
  }

  /** The index of the first point of least key. */
  function ArgMinFirst(pts: seq<Point>, key: Point -> int): (k: nat)
    requires |pts| > 0
    ensures k < |pts|
    ensures forall i | 0 <= i < |pts| :: key(pts[k]) <= key(pts[i])
    ensures forall i | 0 <= i < k :: key(pts[k]) < key(pts[i])
  {
    if |pts| == 1 then 0
    else
      var k := ArgMinFirst(pts[..|pts| - 1], key);
      if key(pts[|pts| - 1]) < key(pts[k]) then |pts| - 1 else k
  }

  /** The index of the last point of greatest key. */
  function ArgMaxLast(pts: seq<Point>, key: Point -> int): (k: nat)
    requires |pts| > 0
    ensures k < |pts|
    ensures forall i | 0 <= i < |pts| :: key(pts[i]) <= key(pts[k])
    ensures forall i | k < i < |pts| :: key(pts[i]) < key(pts[k])
  {
    if |pts| == 1 then 0
    else
      var k := ArgMaxLast(pts[..|pts| - 1], key);
      if key(pts[|pts| - 1]) >= key(pts[k]) then |pts| - 1 else k
  }

  /** The four extreme corners of a shape: least and greatest x + y, least
      and greatest y - x. */
  function Extremes(pts: seq<Point>): (c: Corners)
    requires |pts| > 0
    ensures c.tl in pts && c.tr in pts && c.bl in pts && c.br in pts
    ensures forall p | p in pts ::
      SumKey(c.tl) <= SumKey(p) <= SumKey(c.br) && DiffKey(c.tr) <= DiffKey(p) <= DiffKey(c.bl)
  {
    Corners(pts[ArgMinFirst(pts, SumKey)], pts[ArgMinFirst(pts, DiffKey)],
            pts[ArgMaxLast(pts, DiffKey)], pts[ArgMaxLast(pts, SumKey)])
  }

  /** A shape of at least four points becomes the quad of its extreme
      corners, unless two of those coincide. */
  function QuadOf(pts: seq<Point>): (q: Option<Corners>)
    ensures q.Some? <==> |pts| >= 4 && Distinct(Extremes(pts))
    ensures q.Some? ==> q.value == Extremes(pts)
  {
    if |pts| < 4 then None
    else
      var c := Extremes(pts);
      if Distinct(c) then Some(c) else None
  }

  /** The quad of one shape as a list of zero or one quads. */
  function QuadList(pts: seq<Point>): (qs: seq<Corners>)
    ensures |qs| <= 1
  {
    match QuadOf(pts)
    case Some(q) => [q]
    case None => []
  }

  /** The quads of the shapes that yield one, in shape order. */
  function FilterQuads(shapes: seq<seq<Point>>): (quads: seq<Corners>)
    ensures |quads| <= |shapes|
  {
    if shapes == [] then [] else QuadList(shapes[0]) + FilterQuads(shapes[1..])
  }

  /** filter_quads works shape by shape, so it distributes over
      concatenation: the quads keep the order of their shapes. */
  lemma {:induction false} FilterQuadsAppend(a: seq<seq<Point>>, b: seq<seq<Point>>)
    ensures FilterQuads(a + b) == FilterQuads(a) + FilterQuads(b)
    decreases |a|
  {
    if a == [] {
      assert a + b == b;
    } else {
      assert (a + b)[0] == a[0] && (a + b)[1..] == a[1..] + b;
      FilterQuadsAppend(a[1..], b);
    }
  }

  /** A quad is produced exactly when some shape yields it. */
  lemma {:induction false} FilterQuadsMembers(shapes: seq<seq<Point>>, q: Corners)
    ensures q in FilterQuads(shapes) <==> exists s | s in shapes :: QuadOf(s) == Some(q)
    decreases |shapes|
  {
    if shapes != [] {
      FilterQuadsMembers(shapes[1..], q);
      if QuadOf(shapes[0]) == Some(q) {
        assert q in FilterQuads(shapes);
      }
      if exists s | s in shapes[1..] :: QuadOf(s) == Some(q) {
        var s :| s in shapes[1..] && QuadOf(s) == Some(q);
        assert s in shapes;
      }
      if exists s | s in shapes :: QuadOf(s) == Some(q) {
        var s :| s in shapes && QuadOf(s) == Some(q);
        if s != shapes[0] {
          assert s in shapes[1..];
        }
      }
    }
  }
}
