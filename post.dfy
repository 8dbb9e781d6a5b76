/** Canny post-processing: non-maximum suppression along the quantised
    gradient direction, and hysteresis thresholding by a breadth-first flood
    fill from the strong pixels through the weak ones. */
module Post {
  import opened Grid
  import opened Types

  /** An orientation as the classifier produces it: both components in
      {-1, 0, 1}. */
  predicate UnitOrient(o: Orient)
  {
    -1 <= o.0 <= 1 && -1 <= o.1 <= 1
  }

  /** (x, y) lies on the one-pixel frame of a w-by-h grid. */
  predicate Border(w: nat, h: nat, x: nat, y: nat)
  {
    x == 0 || y == 0 || x + 1 == w || y + 1 == h
  }

  /** Stepping by a unit orientation from an interior pixel lands inside
      the grid, and the flat offset dx + dy * w moves to that pixel. */
  lemma NeighbourIdx(w: nat, h: nat, x: nat, y: nat, dx: int, dy: int)
    requires x < w && y < h && !Border(w, h, x, y) && -1 <= dx <= 1 && -1 <= dy <= 1
    ensures Idx(w, x, y) + (dx + dy * w) == Idx(w, x + dx, y + dy)
    ensures Idx(w, x, y) - (dx + dy * w) == Idx(w, x - dx, y - dy)
    ensures Idx(w, x + dx, y + dy) < w * h && Idx(w, x - dx, y - dy) < w * h
  {
    assert (y + dy) * w == y * w + dy * w;
    assert (y - dy) * w == y * w - dy * w;
    IdxBelow(w, h, x + dx, y + dy);
    IdxBelow(w, h, x - dx, y - dy);
  }

  /** The suppressed magnitude at (x, y): zero on the frame; inside, the
      magnitude itself when it is at least both neighbours along the
      gradient, at flat offsets -d and +d with d = dx + dy * w, and zero
      otherwise. */
  function NmsAt(w: nat, h: nat, mag: seq<real>, orient: seq<Orient>, x: nat, y: nat): (v: real)
    requires |mag| == w * h && |orient| == w * h && x < w && y < h
    requires forall i | 0 <= i < |orient| :: UnitOrient(orient[i])
    ensures Border(w, h, x, y) ==> v == 0.0
    ensures v == 0.0 || v == Get(mag, w, h, x, y)
  {
    if Border(w, h, x, y) then 0.0
    else
      IdxBelow(w, h, x, y);
      var i := Idx(w, x, y);
      var dx, dy := orient[i].0, orient[i].1;
      var d := dx + dy * w;
      assert UnitOrient(orient[i]);
      NeighbourIdx(w, h, x, y, dx, dy);
      var n1, n2 := mag[i - d], mag[i + d];
      if mag[i] >= n1 && mag[i] >= n2 then mag[i] else 0.0
  }

  /** An interior pixel whose magnitude is at least that of all eight
      neighbours survives suppression, whatever its orientation. */
  lemma NmsKeepsLocalMax(w: nat, h: nat, mag: seq<real>, orient: seq<Orient>, x: nat, y: nat)
    requires |mag| == w * h && |orient| == w * h && x < w && y < h
    requires forall i | 0 <= i < |orient| :: UnitOrient(orient[i])
    requires !Border(w, h, x, y)
    requires forall x', y' | x - 1 <= x' <= x + 1 && y - 1 <= y' <= y + 1 ::
      Get(mag, w, h, x', y') <= Get(mag, w, h, x, y)
    ensures NmsAt(w, h, mag, orient, x, y) == Get(mag, w, h, x, y)
  {
    IdxBelow(w, h, x, y);
    var i := Idx(w, x, y);
    var o := orient[i];
    assert UnitOrient(o);
    NeighbourIdx(w, h, x, y, o.0, o.1);
    var d := o.0 + o.1 * w;
    assert Get(mag, w, h, x + o.0, y + o.1) == mag[i + d];
    assert Get(mag, w, h, x - o.0, y - o.1) == mag[i - d];
    assert Get(mag, w, h, x + o.0, y + o.1) <= Get(mag, w, h, x, y);
    assert Get(mag, w, h, x - o.0, y - o.1) <= Get(mag, w, h, x, y);
  }

  /** A pixel weaker than its neighbour along its gradient (dx, dy), on
      either side, is suppressed. */
  lemma NmsDropsNonMax(w: nat, h: nat, mag: seq<real>, orient: seq<Orient>, x: nat, y: nat, dx: int, dy: int)
    requires |mag| == w * h && |orient| == w * h && x < w && y < h
    requires forall i | 0 <= i < |orient| :: UnitOrient(orient[i])
    requires !Border(w, h, x, y) && -1 <= dx <= 1 && -1 <= dy <= 1
    requires Get(orient, w, h, x, y) == (dx, dy)
    requires Get(mag, w, h, x, y) < Get(mag, w, h, x + dx, y + dy) ||
             Get(mag, w, h, x, y) < Get(mag, w, h, x - dx, y - dy)
    ensures NmsAt(w, h, mag, orient, x, y) == 0.0
  {
    IdxBelow(w, h, x, y);
    NeighbourIdx(w, h, x, y, dx, dy);
    var i, d := Idx(w, x, y), dx + dy * w;
    assert Get(mag, w, h, x + dx, y + dy) == mag[i + d];
    assert Get(mag, w, h, x - dx, y - dy) == mag[i - d];
  }

  /** Non-maximum suppression of the magnitude buffer into supp; every cell
      of supp is written. */
  method Nms(w: nat, h: nat, mag: array<real>, orient: array<Orient>, supp: array<real>)
    requires mag.Length == w * h && orient.Length == w * h && supp.Length == w * h
    requires supp != mag
    requires forall i | 0 <= i < orient.Length :: UnitOrient(orient[i])
    modifies supp
    ensures forall x: nat, y: nat | x < w && y < h ::
      Get(supp[..], w, h, x, y) == NmsAt(w, h, mag[..], orient[..], x, y)
  {
    for y := 0 to h
      invariant forall x': nat, y': nat | x' < w && y' < y ::
        Get(supp[..], w, h, x', y') == NmsAt(w, h, mag[..], orient[..], x', y')
    {
      for x := 0 to w
        invariant forall x': nat, y': nat | x' < w && y' < h && Before(x', y', x, y) ::
          Get(supp[..], w, h, x', y') == NmsAt(w, h, mag[..], orient[..], x', y')
      {
        IdxBelow(w, h, x, y);
        var i := x + y * w;
        var v: real;
        if x == 0 || y == 0 || x == w - 1 || y == h - 1 {
          v := 0.0;
        } else {
          var cur := mag[i];
          var (dx, dy) := orient[i];
          var d := dx + dy * w;
          NeighbourIdx(w, h, x, y, dx, dy);
          var n1 := mag[i - d];
          var n2 := mag[i + d];
          v := if cur >= n1 && cur >= n2 then cur else 0.0;
        }
        ghost var prev := supp[..];
        supp[i] := v;
        assert supp[..] == Set(prev, w, h, x, y, v);
      }
    }
  }

  /** (x', y') precedes (x, y) in row-major order. */
  predicate Before(x': nat, y': nat, x: nat, y: nat)
  {
    y' < y || (y' == y && x' < x)
  }

  /** The strong threshold: the high fraction of the peak. */
  function High(cfg: Config, edges: seq<real>): real
    requires |edges| > 0
  {
    cfg.hystHigh * Peak(edges)
  }

  /** The weak threshold: the low fraction of the peak. */
  function Low(cfg: Config, edges: seq<real>): real
    requires |edges| > 0
  {
    cfg.hystLow * Peak(edges)
  }

  predicate InGrid(w: nat, h: nat, p: Point)
  {
    p.x < w && p.y < h
  }

  /** p and q are equal or 8-adjacent. */
  predicate Adjacent(p: Point, q: Point)
  {
    p.x <= q.x + 1 && q.x <= p.x + 1 && p.y <= q.y + 1 && q.y <= p.y + 1
  }

  /** The mask cell at point p. */
  function At(s: seq<bool>, w: nat, h: nat, p: Point): bool
    requires |s| == w * h && InGrid(w, h, p)
  {
    Get(s, w, h, p.x, p.y)
  }

  /** The cell-wise disjunction of two masks. */
  function Either(a: seq<bool>, b: seq<bool>): (r: seq<bool>)
    requires |a| == |b|
    ensures |r| == |a| && forall i | 0 <= i < |r| :: r[i] == (a[i] || b[i])
  {
    seq(|a|, i requires 0 <= i < |a| => a[i] || b[i])
  }

  /** path is an 8-connected chain of cells set in ok. */
  ghost predicate Path(ok: seq<bool>, w: nat, h: nat, path: seq<Point>)
    requires |ok| == w * h
  {
    && (forall k | 0 <= k < |path| :: InGrid(w, h, path[k]) && At(ok, w, h, path[k]))
    && (forall k | 0 < k < |path| :: Adjacent(path[k - 1], path[k]))
  }

  /** p is reached from a strong cell by a chain of cells set in ok. */
  ghost predicate Reaches(ok: seq<bool>, strong: seq<bool>, w: nat, h: nat, p: Point)
    requires |ok| == w * h && |strong| == w * h
  {
    exists path: seq<Point> :: |path| > 0 && Path(ok, w, h, path) &&
      InGrid(w, h, path[0]) && At(strong, w, h, path[0]) && path[|path| - 1] == p
  }

  /** No weak cell next to a set output cell is left unset. */
  ghost predicate Closed(weak: seq<bool>, out: seq<bool>, w: nat, h: nat)
    requires |weak| == w * h && |out| == w * h
  {
    forall p, q | InGrid(w, h, p) && InGrid(w, h, q) && Adjacent(p, q) && At(out, w, h, p) && At(weak, w, h, q) ::
      At(out, w, h, q)
  }

  /** Every queued cell is strong or next to a cell queued before it. */
  ghost predicate Supported(strong: seq<bool>, w: nat, h: nat, queue: seq<Point>)
    requires |strong| == w * h
  {
    forall k | 0 <= k < |queue| ::
      InGrid(w, h, queue[k]) &&
      (At(strong, w, h, queue[k]) || exists j | 0 <= j < k :: Adjacent(queue[j], queue[k]))
  }

  /** A queued cell, all of whose predecessors are set, is reached from a
      strong cell through set cells. */
  lemma {:induction false} QueueReach(strong: seq<bool>, out: seq<bool>, w: nat, h: nat, queue: seq<Point>, k: nat)
    returns (path: seq<Point>)
    requires |strong| == w * h && |out| == w * h
    requires Supported(strong, w, h, queue)
    requires forall j | 0 <= j < |queue| :: InGrid(w, h, queue[j]) && At(out, w, h, queue[j])
    requires k < |queue|
    ensures |path| > 0 && Path(out, w, h, path) && InGrid(w, h, path[0]) && At(strong, w, h, path[0])
    ensures path[|path| - 1] == queue[k]
    decreases k
  {
    if At(strong, w, h, queue[k]) {
      path := [queue[k]];
    } else {
      var j :| 0 <= j < k && Adjacent(queue[j], queue[k]);
      var prefix := QueueReach(strong, out, w, h, queue, j);
      path := prefix + [queue[k]];
      assert path[|path| - 2] == queue[j];
    }
  }

  /** A cell of the disjunction is a cell of either mask. */
  lemma AtEither(a: seq<bool>, b: seq<bool>, w: nat, h: nat, p: Point)
    requires |a| == w * h && |b| == w * h && InGrid(w, h, p)
    ensures At(Either(a, b), w, h, p) == (At(a, w, h, p) || At(b, w, h, p))
  {
    IdxBelow(w, h, p.x, p.y);
  }

  /** Starting from a strong cell, a chain through strong or weak cells
      stays inside any output that contains the strong cells and is closed
      under weak neighbours. */
  lemma {:induction false} ChainInOut(strong: seq<bool>, weak: seq<bool>, out: seq<bool>, w: nat, h: nat,
                                      path: seq<Point>)
    requires |strong| == w * h && |weak| == w * h && |out| == w * h
    requires forall p | InGrid(w, h, p) && At(strong, w, h, p) :: At(out, w, h, p)
    requires Closed(weak, out, w, h)
    requires |path| > 0 && Path(Either(strong, weak), w, h, path)
    requires At(strong, w, h, path[0])
    ensures forall k | 0 <= k < |path| :: At(out, w, h, path[k])
    decreases |path|
  {
    var n := |path| - 1;
    if n > 0 {
      var prefix := path[..n];
      assert forall k | 0 <= k < n :: prefix[k] == path[k];
      assert Path(Either(strong, weak), w, h, prefix);
      ChainInOut(strong, weak, out, w, h, prefix);
      var p, q := path[n - 1], path[n];
      assert At(out, w, h, p) && Adjacent(p, q);
      AtEither(strong, weak, w, h, q);
      assert At(out, w, h, q);
      forall k | 0 <= k < |path| ensures At(out, w, h, path[k]) {
        if k < n {
          assert path[k] == prefix[k];
        }
      }
    }
  }

  /** The state of the flood fill with the first head queue entries
      processed: strong cells are set, set cells are strong or weak, the
      queue holds each set cell once, every queue entry is supported by an
      earlier one, and every weak neighbour of a processed entry is set. */
  ghost predicate DrainState(strong: seq<bool>, weak: seq<bool>, out: seq<bool>, w: nat, h: nat,
                             queue: seq<Point>, head: nat)
  {
    && |strong| == w * h && |weak| == w * h && |out| == w * h && head <= |queue|
    && (forall p | InGrid(w, h, p) && At(strong, w, h, p) :: At(out, w, h, p))
    && (forall p | InGrid(w, h, p) && At(out, w, h, p) :: At(strong, w, h, p) || At(weak, w, h, p))
    && (forall k | 0 <= k < |queue| :: InGrid(w, h, queue[k]) && At(out, w, h, queue[k]))
    && (forall p | InGrid(w, h, p) && At(out, w, h, p) :: p in queue)
    && (forall j, k | 0 <= j < k < |queue| :: queue[j] != queue[k])
    && Supported(strong, w, h, queue)
    && (forall k, q | 0 <= k < head && InGrid(w, h, q) && Adjacent(queue[k], q) && At(weak, w, h, q) ::
          At(out, w, h, q))
  }

  /** Setting an unset weak neighbour of the entry being processed and
      queueing it keeps the state. */
  lemma DrainPush(strong: seq<bool>, weak: seq<bool>, out: seq<bool>, w: nat, h: nat,
                  queue: seq<Point>, head: nat, c: Point)
    requires DrainState(strong, weak, out, w, h, queue, head) && head < |queue|
    requires InGrid(w, h, c) && Adjacent(queue[head], c) && At(weak, w, h, c) && !At(out, w, h, c)
    ensures DrainState(strong, weak, Set(out, w, h, c.x, c.y, true), w, h, queue + [c], head)
    ensures c !in queue
  {
    var out' := Set(out, w, h, c.x, c.y, true);
    var queue' := queue + [c];
    assert forall p | InGrid(w, h, p) :: At(out', w, h, p) == (p == c || At(out, w, h, p));
    assert c !in queue;
    assert Adjacent(queue'[head], queue'[|queue|]);
  }

  /** Setting cell c of a mask keeps every cell already set and sets c. */
  lemma SetGrows(out: seq<bool>, w: nat, h: nat, c: Point)
    requires |out| == w * h && InGrid(w, h, c)
    ensures At(Set(out, w, h, c.x, c.y, true), w, h, c)
    ensures forall d | InGrid(w, h, d) && At(out, w, h, d) :: At(Set(out, w, h, c.x, c.y, true), w, h, d)
  {
  }

  /** Once every weak neighbour of the entry at head is set, that entry
      is processed. */
  lemma DrainAdvance(strong: seq<bool>, weak: seq<bool>, out: seq<bool>, w: nat, h: nat,
                     queue: seq<Point>, head: nat)
    requires DrainState(strong, weak, out, w, h, queue, head) && head < |queue|
    requires forall c | InGrid(w, h, c) && Adjacent(queue[head], c) && At(weak, w, h, c) :: At(out, w, h, c)
    ensures DrainState(strong, weak, out, w, h, queue, head + 1)
  {
  }

  /** Once every entry is processed no weak neighbour of a set cell is
      left unset. */
  lemma DrainClosed(strong: seq<bool>, weak: seq<bool>, out: seq<bool>, w: nat, h: nat, queue: seq<Point>)
    requires DrainState(strong, weak, out, w, h, queue, |queue|)
    ensures Closed(weak, out, w, h)
  {
    forall p, q | InGrid(w, h, p) && InGrid(w, h, q) && Adjacent(p, q) && At(out, w, h, p) && At(weak, w, h, q)
      ensures At(out, w, h, q)
    {
      var k :| 0 <= k < |queue| && queue[k] == p;
    }
  }

  /** Once every entry is processed the output is exactly the cells reached
      from a strong cell through strong or weak cells. */
  lemma DrainExact(strong: seq<bool>, weak: seq<bool>, out: seq<bool>, w: nat, h: nat, queue: seq<Point>)
    requires DrainState(strong, weak, out, w, h, queue, |queue|)
    ensures forall p | InGrid(w, h, p) :: At(out, w, h, p) <==> Reaches(Either(strong, weak), strong, w, h, p)
  {
    DrainClosed(strong, weak, out, w, h, queue);
    var ok := Either(strong, weak);
    forall p | InGrid(w, h, p) ensures At(out, w, h, p) <==> Reaches(ok, strong, w, h, p) {
      if At(out, w, h, p) {
        OutReaches(strong, weak, out, w, h, queue, p);
      }
      if Reaches(ok, strong, w, h, p) {
        var path :| |path| > 0 && Path(ok, w, h, path) && InGrid(w, h, path[0]) &&
          At(strong, w, h, path[0]) && path[|path| - 1] == p;
        ChainInOut(strong, weak, out, w, h, path);
      }
    }
  }

  /** A set cell is reached from a strong cell through strong or weak
      cells. */
  lemma OutReaches(strong: seq<bool>, weak: seq<bool>, out: seq<bool>, w: nat, h: nat, queue: seq<Point>, p: Point)
    requires DrainState(strong, weak, out, w, h, queue, 0)
    requires InGrid(w, h, p) && At(out, w, h, p)
    ensures Reaches(Either(strong, weak), strong, w, h, p)
  {
    var ok := Either(strong, weak);
    var k :| 0 <= k < |queue| && queue[k] == p;
    var path := QueueReach(strong, out, w, h, queue, k);
    forall j | 0 <= j < |path| ensures At(ok, w, h, path[j]) {
      AtEither(strong, weak, w, h, path[j]);
    }
    assert Path(ok, w, h, path);
  }

  /** Every cell is strong when its magnitude is above high, and weak when
      it is above low and at most high. */
  predicate Thresholded(w: nat, h: nat, edges: seq<real>, high: real, low: real, strong: seq<bool>, weak: seq<bool>)
    requires |edges| == w * h && |strong| == w * h && |weak| == w * h
  {
    forall x: nat, y: nat | x < w && y < h ::
      && Get(strong, w, h, x, y) == (Get(edges, w, h, x, y) > high)
      && Get(weak, w, h, x, y) == (low < Get(edges, w, h, x, y) <= high)
  }

  /** The masks and the queue left by the thresholding pass: every cell is
      classified strong (above high) or weak (above low and at most high),
      the output is the strong cells, and the queue holds each strong cell
      once. */
  ghost predicate Classified(w: nat, h: nat, edges: seq<real>, high: real, low: real,
                             strong: seq<bool>, weak: seq<bool>, out: seq<bool>, queue: seq<Point>)
    requires |edges| == w * h && |strong| == w * h && |weak| == w * h && |out| == w * h
  {
    && Thresholded(w, h, edges, high, low, strong, weak)
    && (forall x: nat, y: nat | x < w && y < h :: Get(out, w, h, x, y) == Get(strong, w, h, x, y))
    && (forall k | 0 <= k < |queue| :: InGrid(w, h, queue[k]) && Get(edges, w, h, queue[k].x, queue[k].y) > high)
    && (forall p | InGrid(w, h, p) && Get(edges, w, h, p.x, p.y) > high :: p in queue)
    && (forall j, k | 0 <= j < k < |queue| :: queue[j] != queue[k])
  }

  /** The classified masks are the starting state of the flood fill. */
  lemma ClassifiedState(w: nat, h: nat, edges: seq<real>, high: real, low: real,
                        strong: seq<bool>, weak: seq<bool>, out: seq<bool>, queue: seq<Point>)
    requires |edges| == w * h && |strong| == w * h && |weak| == w * h && |out| == w * h
    requires Classified(w, h, edges, high, low, strong, weak, out, queue)
    ensures DrainState(strong, weak, out, w, h, queue, 0)
  {
    assert forall p | InGrid(w, h, p) :: At(out, w, h, p) == At(strong, w, h, p) == (Get(edges, w, h, p.x, p.y) > high);
  }

  /** The first n cells of the masks are classified from the magnitudes. */
  ghost predicate ClassifiedUpTo(edges: seq<real>, high: real, low: real,
                                 strong: seq<bool>, weak: seq<bool>, out: seq<bool>, n: nat)
  {
    && n <= |edges| && n <= |strong| && n <= |weak| && n <= |out|
    && forall i | 0 <= i < n ::
         strong[i] == (edges[i] > high) && weak[i] == (low < edges[i] <= high) && out[i] == strong[i]
  }

  /** The queue holds, once each, the strong cells before column x of row y. */
  ghost predicate QueuedBefore(w: nat, h: nat, edges: seq<real>, high: real, queue: seq<Point>, x: nat, y: nat)
    requires |edges| == w * h
  {
    && (forall k | 0 <= k < |queue| ::
          InGrid(w, h, queue[k]) && Before(queue[k].x, queue[k].y, x, y) && Get(edges, w, h, queue[k].x, queue[k].y) > high)
    && (forall p | InGrid(w, h, p) && Before(p.x, p.y, x, y) && Get(edges, w, h, p.x, p.y) > high :: p in queue)
    && (forall j, k | 0 <= j < k < |queue| :: queue[j] != queue[k])
  }

  /** Classifying cell n extends the classified prefix by one. */
  lemma ClassifiedStep(edges: seq<real>, high: real, low: real,
                       strong: seq<bool>, weak: seq<bool>, out: seq<bool>, n: nat)
    requires ClassifiedUpTo(edges, high, low, strong, weak, out, n)
    requires n < |edges| && n < |strong| && n < |weak| && n < |out|
    ensures ClassifiedUpTo(edges, high, low, strong[n := edges[n] > high],
                           weak[n := low < edges[n] <= high], out[n := edges[n] > high], n + 1)
  {
  }

  /** Queueing cell (x, y) when it is strong extends the queue of strong
      cells before it to the cells up to it. */
  lemma QueuedStep(w: nat, h: nat, edges: seq<real>, high: real, queue: seq<Point>, x: nat, y: nat)
    requires |edges| == w * h && x < w && y < h
    requires QueuedBefore(w, h, edges, high, queue, x, y)
    ensures QueuedBefore(w, h, edges, high, queue + if Get(edges, w, h, x, y) > high then [Point(x, y)] else [],
                         x + 1, y)
  {
    var queue' := queue + if Get(edges, w, h, x, y) > high then [Point(x, y)] else [];
    forall p | InGrid(w, h, p) && Before(p.x, p.y, x + 1, y) && Get(edges, w, h, p.x, p.y) > high
      ensures p in queue'
    {
      if p != Point(x, y) {
        assert p in queue;
      } else {
        assert queue'[|queue|] == p;
      }
    }
  }

  /** One row of the thresholding pass: the cells of row y are classified
      and the strong ones queued, left to right. */
  method ClassifyRow(w: nat, h: nat, edges: array<real>, high: real, low: real,
                     strong: array<bool>, weak: array<bool>, out: array<bool>, y: nat, queue0: seq<Point>)
    returns (queue: seq<Point>)
    requires edges.Length == w * h && strong.Length == w * h && weak.Length == w * h && out.Length == w * h
    requires strong != weak && strong != out && weak != out
    requires y < h
    requires ClassifiedUpTo(edges[..], high, low, strong[..], weak[..], out[..], y * w)
    requires QueuedBefore(w, h, edges[..], high, queue0, 0, y)
    modifies strong, weak, out
    ensures ClassifiedUpTo(edges[..], high, low, strong[..], weak[..], out[..], (y + 1) * w)
    ensures QueuedBefore(w, h, edges[..], high, queue, 0, y + 1)
  {
    queue := queue0;
    for x := 0 to w
      invariant ClassifiedUpTo(edges[..], high, low, strong[..], weak[..], out[..], x + y * w)
      invariant QueuedBefore(w, h, edges[..], high, queue, x, y)
    {
      IdxBelow(w, h, x, y);
      var i := x + y * w;
      ClassifiedStep(edges[..], high, low, strong[..], weak[..], out[..], i);
      QueuedStep(w, h, edges[..], high, queue, x, y);
      var v := edges[i];
      var str := v > high;
      var wk := v > low && v <= high;
      strong[i] := str;
      weak[i] := wk;
      out[i] := str;
      if str {
        queue := queue + [Point(x, y)];
      }
    }
    assert w + y * w == (y + 1) * w;
  }

  /** The thresholding pass: cells are visited in row-major order, each
      classified into the three masks, and the strong ones queued. */
  method Classify(w: nat, h: nat, edges: array<real>, high: real, low: real,
                  strong: array<bool>, weak: array<bool>, out: array<bool>)
    returns (queue: seq<Point>)
    requires edges.Length == w * h && strong.Length == w * h && weak.Length == w * h && out.Length == w * h
    requires strong != weak && strong != out && weak != out
    modifies strong, weak, out
    ensures Classified(w, h, edges[..], high, low, strong[..], weak[..], out[..], queue)
  {
    queue := [];
    for y := 0 to h
      invariant ClassifiedUpTo(edges[..], high, low, strong[..], weak[..], out[..], y * w)
      invariant QueuedBefore(w, h, edges[..], high, queue, 0, y)
    {
      queue := ClassifyRow(w, h, edges, high, low, strong, weak, out, y, queue);
    }
    forall x: nat, y: nat | x < w && y < h
      ensures && Get(strong[..], w, h, x, y) == (Get(edges[..], w, h, x, y) > high)
              && Get(weak[..], w, h, x, y) == (low < Get(edges[..], w, h, x, y) <= high)
              && Get(out[..], w, h, x, y) == Get(strong[..], w, h, x, y)
    {
      IdxBelow(w, h, x, y);
    }
  }

  /** The number of unset cells of a mask. */
  function Unset(out: seq<bool>): (n: nat)
    ensures n <= |out|
  {
    multiset(out)[false]
  }

  /** Setting an unset cell leaves one unset cell fewer. */
  lemma UnsetSet(out: seq<bool>, i: nat)
    requires i < |out| && !out[i]
    ensures Unset(out[i := true]) + 1 == Unset(out)
  {
  }

  /** Processes the cell c of the window of the entry at head: an unset
      weak cell is set and queued. */
  method VisitCell(w: nat, h: nat, strong: seq<bool>, weak: seq<bool>, out: array<bool>,
                   queue: seq<Point>, head: nat, c: Point)
    returns (queue': seq<Point>)
    requires DrainState(strong, weak, out[..], w, h, queue, head) && head < |queue|
    requires out.Length == w * h
    requires InGrid(w, h, c) && Adjacent(queue[head], c)
    modifies out
    ensures DrainState(strong, weak, out[..], w, h, queue', head)
    ensures |queue'| >= |queue| && queue'[..|queue|] == queue
    ensures Unset(out[..]) + |queue'| == Unset(old(out[..])) + |queue|
    ensures At(weak, w, h, c) ==> At(out[..], w, h, c)
    ensures forall d | InGrid(w, h, d) && At(old(out[..]), w, h, d) :: At(out[..], w, h, d)
  {
    queue' := queue;
    IdxBelow(w, h, c.x, c.y);
    var i := c.x + c.y * w;
    if weak[i] && !out[i] {
      ghost var o0 := out[..];
      DrainPush(strong, weak, o0, w, h, queue, head, c);
      out[i] := true;
      assert out[..] == Set(o0, w, h, c.x, c.y, true) == o0[i := true];
      SetGrows(o0, w, h, c);
      UnsetSet(o0, i);
      queue' := queue + [c];
    }
  }

  /** Processes row ny of the window of the queue entry p at head: every
      unset weak cell of the row within one column of p is set and queued. */
  method VisitRow(w: nat, h: nat, strong: seq<bool>, weak: seq<bool>, out: array<bool>,
                  queue: seq<Point>, head: nat, p: Point, ny: nat)
    returns (queue': seq<Point>)
    requires DrainState(strong, weak, out[..], w, h, queue, head) && head < |queue| && queue[head] == p
    requires out.Length == w * h
    requires ny < h && p.y <= ny + 1 && ny <= p.y + 1
    modifies out
    ensures DrainState(strong, weak, out[..], w, h, queue', head) && head < |queue'| && queue'[head] == p
    ensures |queue'| >= |queue|
    ensures Unset(out[..]) + |queue'| == Unset(old(out[..])) + |queue|
    ensures forall d | InGrid(w, h, d) && At(old(out[..]), w, h, d) :: At(out[..], w, h, d)
    ensures forall c | InGrid(w, h, c) && c.y == ny && Adjacent(p, c) && At(weak, w, h, c) :: At(out[..], w, h, c)
  {
    queue' := queue;
    assert InGrid(w, h, p);
    var x0 := if p.x >= 1 then p.x - 1 else 0;
    var x1 := if p.x + 1 < w - 1 then p.x + 1 else w - 1;
    var nx := x0;
    while nx <= x1
      invariant x0 <= nx <= x1 + 1
      invariant DrainState(strong, weak, out[..], w, h, queue', head) && head < |queue'| && queue'[head] == p
      invariant |queue'| >= |queue|
      invariant Unset(out[..]) + |queue'| == Unset(old(out[..])) + |queue|
      invariant forall d | InGrid(w, h, d) && At(old(out[..]), w, h, d) :: At(out[..], w, h, d)
      invariant forall c | InGrid(w, h, c) && c.y == ny && x0 <= c.x < nx && At(weak, w, h, c) ::
        At(out[..], w, h, c)
    {
      ghost var q0, o1 := queue', out[..];
      queue' := VisitCell(w, h, strong, weak, out, queue', head, Point(nx, ny));
      assert queue'[head] == q0[..|q0|][head];
      forall c | InGrid(w, h, c) && c.y == ny && x0 <= c.x < nx + 1 && At(weak, w, h, c)
        ensures At(out[..], w, h, c)
      {
        if c.x < nx {
          assert At(o1, w, h, c);
        } else {
          assert c == Point(nx, ny);
        }
      }
      nx := nx + 1;
    }
  }

  /** Processes the queue entry at head: every unset weak cell in its 3x3
      window, clipped to the grid, is set and queued. */
  method Visit(w: nat, h: nat, strong: seq<bool>, weak: seq<bool>, out: array<bool>,
               queue: seq<Point>, head: nat)
    returns (queue': seq<Point>)
    requires DrainState(strong, weak, out[..], w, h, queue, head) && head < |queue|
    requires out.Length == w * h
    modifies out
    ensures DrainState(strong, weak, out[..], w, h, queue', head + 1)
    ensures |queue'| >= |queue|
    ensures Unset(out[..]) + |queue'| == Unset(old(out[..])) + |queue|
  {
    var p := queue[head];
    queue' := queue;
    var y0 := if p.y >= 1 then p.y - 1 else 0;
    var y1 := if p.y + 1 < h - 1 then p.y + 1 else h - 1;
    var ny := y0;
    while ny <= y1
      invariant y0 <= ny <= y1 + 1
      invariant DrainState(strong, weak, out[..], w, h, queue', head) && head < |queue'| && queue'[head] == p
      invariant |queue'| >= |queue|
      invariant Unset(out[..]) + |queue'| == Unset(old(out[..])) + |queue|
      invariant forall c | InGrid(w, h, c) && Adjacent(p, c) && c.y < ny && At(weak, w, h, c) ::
        At(out[..], w, h, c)
    {
      ghost var o0 := out[..];
      queue' := VisitRow(w, h, strong, weak, out, queue', head, p, ny);
      forall c | InGrid(w, h, c) && Adjacent(p, c) && c.y < ny + 1 && At(weak, w, h, c)
        ensures At(out[..], w, h, c)
      {
        if c.y < ny {
          assert At(o0, w, h, c);
        }
      }
      ny := ny + 1;
    }
    DrainAdvance(strong, weak, out[..], w, h, queue', head);
  }

  /** Drains the queue: entries are taken from the front until none is
      left, each one processed by Visit. */
  method Drain(w: nat, h: nat, strong: seq<bool>, weak: seq<bool>, out: array<bool>, queue0: seq<Point>)
    returns (ghost queue: seq<Point>)
    requires DrainState(strong, weak, out[..], w, h, queue0, 0)
    requires out.Length == w * h
    modifies out
    ensures DrainState(strong, weak, out[..], w, h, queue, |queue|)
  {
    queue := queue0;
    var dq := queue0;
    var head := 0;
    while head < |dq|
      invariant DrainState(strong, weak, out[..], w, h, dq, head)
      invariant queue == dq
      decreases 2 * Unset(out[..]) + |dq| - head
    {
      dq := Visit(w, h, strong, weak, out, dq, head);
      head := head + 1;
      queue := dq;
    }
  }

  /** Hysteresis thresholding of the suppressed magnitudes: strong cells
      lie above hystHigh times the peak, weak cells above hystLow times the
      peak and at most the strong threshold, and the output is the strong
      cells together with every weak cell connected to one through weak
      cells. */
  method Hysteresis(cfg: Config, w: nat, h: nat, edges: array<real>,
                    strong: array<bool>, weak: array<bool>, out: array<bool>)
    requires edges.Length == w * h && strong.Length == w * h && weak.Length == w * h && out.Length == w * h
    requires strong != weak && strong != out && weak != out
    modifies strong, weak, out
    ensures w * h > 0 ==> Thresholded(w, h, edges[..], High(cfg, edges[..]), Low(cfg, edges[..]), strong[..], weak[..])
    ensures forall p | InGrid(w, h, p) :: At(strong[..], w, h, p) ==> At(out[..], w, h, p)
    ensures forall p | InGrid(w, h, p) :: At(out[..], w, h, p) ==> At(strong[..], w, h, p) || At(weak[..], w, h, p)
    ensures Closed(weak[..], out[..], w, h)
    ensures forall p | InGrid(w, h, p) ::
      At(out[..], w, h, p) <==> Reaches(Either(strong[..], weak[..]), strong[..], w, h, p)
  {
    ghost var e := edges[..];
    var high, low := 0.0, 0.0;
    if edges.Length > 0 {
      var max := Peak(edges[..]);
      high := cfg.hystHigh * max;
      low := cfg.hystLow * max;
      assert high == High(cfg, e) && low == Low(cfg, e);
    }
    var queue := Classify(w, h, edges, high, low, strong, weak, out);
    ClassifiedState(w, h, e, high, low, strong[..], weak[..], out[..], queue);
    var s, wk := strong[..], weak[..];
    assert Thresholded(w, h, e, high, low, s, wk);
    ghost var done := Drain(w, h, s, wk, out, queue);
    assert strong[..] == s && weak[..] == wk && edges[..] == e;
    DrainDone(s, wk, out[..], w, h, done);
  }

  /** What the drained flood fill guarantees: strong cells are set, set
      cells are strong or weak, no weak neighbour of a set cell is unset,
      and the set cells are exactly those reached from a strong cell. */
  lemma DrainDone(strong: seq<bool>, weak: seq<bool>, out: seq<bool>, w: nat, h: nat, queue: seq<Point>)
    requires DrainState(strong, weak, out, w, h, queue, |queue|)
    ensures forall p | InGrid(w, h, p) :: At(strong, w, h, p) ==> At(out, w, h, p)
    ensures forall p | InGrid(w, h, p) :: At(out, w, h, p) ==> At(strong, w, h, p) || At(weak, w, h, p)
    ensures Closed(weak, out, w, h)
    ensures forall p | InGrid(w, h, p) :: At(out, w, h, p) <==> Reaches(Either(strong, weak), strong, w, h, p)
  {
    DrainClosed(strong, weak, out, w, h, queue);
    DrainExact(strong, weak, out, w, h, queue);
  }
}
