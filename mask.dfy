/** The two mask detectors.  Canny: blur, Sobel, gradient magnitude and
    quantised orientation, non-maximum suppression and hysteresis.  Harris:
    Sobel, the blurred structure tensor, the corner response and
    suppression of every response that is not the largest in its 7x7
    window. */
module Mask {
  import opened Grid
  import opened Types
  import opened Oper
  import opened Post

  /** Bounds of the orientation sectors: tan(22.5 degrees) and
      tan(67.5 degrees) to four places. */
  const TanLow: real := 0.4142
  const TanHigh: real := 2.4142

  /** The half-width of the Harris suppression window. */
  const HarrisNearby: nat := 3

  /** The orientation classifier as written: a gradient within 22.5 degrees
      of the x axis gives (1, 0); one within 22.5 degrees of the y axis
      gives (1, 1); of the diagonal sectors, the one where gx and gy share a
      sign gives (0, 1) and the other (1, -1). */
  function QuantiseAsWritten(gx: real, gy: real): (o: Orient)
    ensures o == (1, 0) || o == (1, 1) || o == (0, 1) || o == (1, -1)
  {
    var ax, ay := Abs(gx), Abs(gy);
    if ay <= ax * TanLow then (1, 0)
    else if ay >= ax * TanHigh then (1, 1)
    else if gx * gy > 0.0 then (0, 1)
    else (1, -1)
  }

  /** The corrected classifier: the offsets of the two middle branches
      exchanged, so that each gradient sector gets the neighbour offset
      pointing along it. */
  function Quantise(gx: real, gy: real): (o: Orient)
    ensures o == (1, 0) || o == (1, 1) || o == (0, 1) || o == (1, -1)
    ensures UnitOrient(o)
  {
    var ax, ay := Abs(gx), Abs(gy);
    if ay <= ax * TanLow then (1, 0)
    else if ay >= ax * TanHigh then (0, 1)
    else if gx * gy > 0.0 then (1, 1)
    else (1, -1)
  }

  /** The offset o points along the gradient axis (gx, gy), up to the
      sector width: the axis offsets within 22.5 degrees of their axis, the
      diagonal offsets in the sector between, on the side of the diagonal
      that the signs of gx and gy pick. */
  predicate Along(o: Orient, gx: real, gy: real)
  {
    var ax, ay := Abs(gx), Abs(gy);
    if o == (1, 0) then ay <= ax * TanLow
    else if o == (0, 1) then ay >= ax * TanHigh && ay > ax * TanLow
    else if o == (1, 1) then ax * TanLow < ay < ax * TanHigh && gx * gy > 0.0
    else if o == (1, -1) then ax * TanLow < ay < ax * TanHigh && gx * gy <= 0.0
    else false
  }

  /** The corrected classifier picks an offset along the gradient, and it
      is the only one. */
  lemma QuantiseAlong(gx: real, gy: real, o: Orient)
    ensures Along(Quantise(gx, gy), gx, gy)
    ensures Along(o, gx, gy) ==> o == Quantise(gx, gy)
  {
  }

  /** As written, a purely vertical gradient (a horizontal edge) is given
      the diagonal offset (1, 1), which does not point along it. */
  lemma QuantiseAsWrittenVertical()
    ensures QuantiseAsWritten(0.0, 1.0) == (1, 1)
    ensures !Along(QuantiseAsWritten(0.0, 1.0), 0.0, 1.0)
    ensures Quantise(0.0, 1.0) == (0, 1)
  {
  }

  /** A gradient and its opposite lie on the same axis and get the same
      offset. */
  lemma QuantiseOpposite(gx: real, gy: real)
    ensures Quantise(-gx, -gy) == Quantise(gx, gy)
  {
    assert (-gx) * (-gy) == gx * gy;
  }

  /** The Harris corner response of a blurred structure tensor with
      entries a = sum gx^2, b = sum gy^2 and c = sum gx gy: its determinant
      minus k times its squared trace. */
  function Response(a: real, b: real, c: real, k: real): real
  {
    (a * b - c * c) - k * (a + b) * (a + b)
  }

  /** The response depends on the tensor only: exchanging the axes, or
      mirroring one of them, leaves it unchanged. */
  lemma ResponseSymmetric(a: real, b: real, c: real, k: real)
    ensures Response(b, a, c, k) == Response(a, b, c, k)
    ensures Response(a, b, -c, k) == Response(a, b, c, k)
  {
    assert b * a == a * b && (b + a) == (a + b);
    assert (-c) * (-c) == c * c;
  }

  /** A straight edge along one axis (gradient energy in one direction
      only) gives a response of at most zero for k >= 0. */
  lemma ResponseEdge(a: real, k: real)
    requires k >= 0.0
    ensures Response(a, 0.0, 0.0, k) <= 0.0
  {
    assert a * 0.0 - 0.0 * 0.0 == 0.0;
    assert (a + 0.0) * (a + 0.0) >= 0.0;
  }

  /** (x, y) holds a response above the threshold that no response in its
      7x7 window exceeds, and the window lies inside the grid. */
  predicate CornerAt(resp: seq<real>, w: nat, h: nat, thresh: real, x: nat, y: nat)
    requires |resp| == w * h && x < w && y < h
  {
    && Interior(w, h, x, y, HarrisNearby)
    && Get(resp, w, h, x, y) > thresh
    && forall x': nat, y': nat | x + 3 >= x' && x' + 3 >= x && y + 3 >= y' && y' + 3 >= y ::
         Get(resp, w, h, x', y') <= Get(resp, w, h, x, y)
  }

  /** Two marked pixels within one window carry equal responses: a
      weaker pixel is never marked next to a stronger one. */
  lemma CornersNearEqual(resp: seq<real>, w: nat, h: nat, thresh: real, x1: nat, y1: nat, x2: nat, y2: nat)
    requires |resp| == w * h && x1 < w && y1 < h && x2 < w && y2 < h
    requires CornerAt(resp, w, h, thresh, x1, y1) && CornerAt(resp, w, h, thresh, x2, y2)
    requires x1 + 3 >= x2 && x2 + 3 >= x1 && y1 + 3 >= y2 && y2 + 3 >= y1
    ensures Get(resp, w, h, x1, y1) == Get(resp, w, h, x2, y2)
  {
    assert Get(resp, w, h, x2, y2) <= Get(resp, w, h, x1, y1);
    assert Get(resp, w, h, x1, y1) <= Get(resp, w, h, x2, y2);
  }

  /** Ties are not broken: on a flat response above the threshold every
      pixel away from the frame is marked. */
  lemma FlatResponseAllMarked(resp: seq<real>, w: nat, h: nat, thresh: real, c: real, x: nat, y: nat)
    requires |resp| == w * h && forall i | 0 <= i < |resp| :: resp[i] == c
    requires c > thresh && x < w && y < h && Interior(w, h, x, y, HarrisNearby)
    ensures CornerAt(resp, w, h, thresh, x, y)
  {
    GetConstant(resp, w, h, c);
  }

  /** The suppression loop: over the cells at least three from every
      border, a response above the threshold is marked when nothing in its
      7x7 window is larger. */
  method Suppress(resp: seq<real>, w: nat, h: nat, thresh: real) returns (mask: array<bool>)
    requires |resp| == w * h
    ensures fresh(mask) && mask.Length == w * h
    ensures forall x: nat, y: nat | x < w && y < h ::
      Get(mask[..], w, h, x, y) == CornerAt(resp, w, h, thresh, x, y)
  {
    mask := new bool[w * h](_ => false);
    forall x: nat, y: nat | x < w && y < h ensures !Get(mask[..], w, h, x, y) {
      IdxBelow(w, h, x, y);
    }
    var y := HarrisNearby;
    while y + HarrisNearby < h
      invariant HarrisNearby <= y
      invariant forall x': nat, y': nat | x' < w && y' < h && y' < y ::
        Get(mask[..], w, h, x', y') == CornerAt(resp, w, h, thresh, x', y')
      invariant forall x': nat, y': nat | x' < w && y <= y' < h :: !Get(mask[..], w, h, x', y')
    {
      var x := HarrisNearby;
      while x + HarrisNearby < w
        invariant HarrisNearby <= x
        invariant forall x': nat, y': nat | x' < w && y' < h && (y' < y || (y' == y && x' < x)) ::
          Get(mask[..], w, h, x', y') == CornerAt(resp, w, h, thresh, x', y')
        invariant forall x': nat, y': nat | x' < w && y' < h && (y' > y || (y' == y && x' >= x)) ::
          !Get(mask[..], w, h, x', y')
      {
        var i := x + y * w;
        IdxBelow(w, h, x, y);
        var v := resp[i];
        if v > thresh {
          var isMax := forall x': nat, y': nat | x + 3 >= x' && x' + 3 >= x && y + 3 >= y' && y' + 3 >= y ::
            Get(resp, w, h, x', y') <= v;
          if isMax {
            ghost var m0 := mask[..];
            mask[i] := true;
            assert mask[..] == Set(m0, w, h, x, y, true);
          }
        }
        x := x + 1;
      }
      y := y + 1;
    }
  }

  /** The length of the gradient (gx, gy). */
  function Magnitude(gx: real, gy: real, sqrt: real -> NonNegReal): real
  {
    sqrt(gx * gx + gy * gy)
  }

  /** The gradient magnitude of every cell. */
  function Magnitudes(gx: seq<real>, gy: seq<real>, sqrt: real -> NonNegReal): (m: seq<real>)
    requires |gx| == |gy|
    ensures |m| == |gx| && forall i | 0 <= i < |m| :: m[i] == Magnitude(gx[i], gy[i], sqrt)
  {
    seq(|gx|, i requires 0 <= i < |gx| => Magnitude(gx[i], gy[i], sqrt))
  }

  /** The quantised orientation of every cell. */
  function Orientations(gx: seq<real>, gy: seq<real>): (o: seq<Orient>)
    requires |gx| == |gy|
    ensures |o| == |gx| && forall i | 0 <= i < |o| :: o[i] == Quantise(gx[i], gy[i]) && UnitOrient(o[i])
  {
    seq(|gx|, i requires 0 <= i < |gx| => Quantise(gx[i], gy[i]))
  }

  /** The cell-wise products of two buffers. */
  function Products(a: seq<real>, b: seq<real>): (p: seq<real>)
    requires |a| == |b|
    ensures |p| == |a| && forall i | 0 <= i < |p| :: p[i] == a[i] * b[i]
  {
    seq(|a|, i requires 0 <= i < |a| => a[i] * b[i])
  }

  /** The corner response of every cell. */
  function Responses(sxx: seq<real>, syy: seq<real>, sxy: seq<real>, k: real): (r: seq<real>)
    requires |sxx| == |syy| == |sxy|
    ensures |r| == |sxx| && forall i | 0 <= i < |r| :: r[i] == Response(sxx[i], syy[i], sxy[i], k)
  {
    seq(|sxx|, i requires 0 <= i < |sxx| => Response(sxx[i], syy[i], sxy[i], k))
  }

  /** The gradient magnitude and quantised orientation of every cell,
      thinned by non-maximum suppression. */
  method Suppressed(gx: seq<real>, gy: seq<real>, w: nat, h: nat, sqrt: real -> NonNegReal)
    returns (supp: array<real>)
    requires |gx| == |gy| == w * h
    ensures fresh(supp) && supp.Length == w * h
    ensures forall x: nat, y: nat | x < w && y < h ::
      Get(supp[..], w, h, x, y) == NmsAt(w, h, Magnitudes(gx, gy, sqrt), Orientations(gx, gy), x, y)
  {
    var mag := new real[w * h](i requires 0 <= i < w * h => Magnitudes(gx, gy, sqrt)[i]);
    var orient := new Orient[w * h](i requires 0 <= i < w * h => Orientations(gx, gy)[i]);
    assert mag[..] == Magnitudes(gx, gy, sqrt);
    assert orient[..] == Orientations(gx, gy);
    supp := new real[w * h](_ => 0.0);
    Nms(w, h, mag, orient, supp);
  }

  /** The Canny edge mask: blur, Sobel, magnitude and orientation, then
      non-maximum suppression and hysteresis.  The ghost results are the
      intermediate buffers. */
  method Canny(cfg: Config, img: seq<real>, w: nat, h: nat, sqrt: real -> NonNegReal)
    returns (edges: array<bool>, ghost blurred: seq<real>, ghost gx: seq<real>, ghost gy: seq<real>,
             ghost supp: seq<real>, ghost strong: seq<bool>, ghost weak: seq<bool>)
    requires |img| == w * h && w >= 2 && h >= 2
    ensures fresh(edges) && edges.Length == w * h
    ensures |blurred| == |gx| == |gy| == |supp| == |strong| == |weak| == w * h
    ensures forall x: nat, y: nat | x < w && y < h :: Get(blurred, w, h, x, y) == BlurAt(img, w, h, x, y)
    ensures forall x: nat, y: nat | x < w && y < h ::
      Get(gx, w, h, x, y) == SobelXAt(blurred, w, h, x, y) && Get(gy, w, h, x, y) == SobelYAt(blurred, w, h, x, y)
    ensures forall x: nat, y: nat | x < w && y < h ::
      Get(supp, w, h, x, y) == NmsAt(w, h, Magnitudes(gx, gy, sqrt), Orientations(gx, gy), x, y)
    ensures |supp| > 0 && Thresholded(w, h, supp, High(cfg, supp), Low(cfg, supp), strong, weak)
    ensures forall p | InGrid(w, h, p) :: At(edges[..], w, h, p) <==> Reaches(Either(strong, weak), strong, w, h, p)
  {
    MulMono(1, h, w);
    var b := Blur(img, w, h);
    blurred := b[..];
    var sx, sy := Sobel(b[..], w, h);
    var xs, ys := sx[..], sy[..];
    gx, gy := xs, ys;
    var s := Suppressed(xs, ys, w, h, sqrt);
    supp := s[..];
    var st := new bool[w * h](_ => false);
    var wk := new bool[w * h](_ => false);
    edges := new bool[w * h](_ => false);
    Hysteresis(cfg, w, h, s, st, wk, edges);
    strong, weak := st[..], wk[..];
  }

  /** The blurred gradient products: the entries of the structure tensor. */
  method Tensor(gx: seq<real>, gy: seq<real>, w: nat, h: nat) returns (sxx: seq<real>, syy: seq<real>, sxy: seq<real>)
    requires |gx| == |gy| == w * h && w >= 2 && h >= 2
    ensures |sxx| == |syy| == |sxy| == w * h
    ensures forall x: nat, y: nat | x < w && y < h ::
      && Get(sxx, w, h, x, y) == BlurAt(Products(gx, gx), w, h, x, y)
      && Get(syy, w, h, x, y) == BlurAt(Products(gy, gy), w, h, x, y)
      && Get(sxy, w, h, x, y) == BlurAt(Products(gx, gy), w, h, x, y)
  {
    var bxx := Blur(Products(gx, gx), w, h);
    sxx := bxx[..];
    var byy := Blur(Products(gy, gy), w, h);
    syy := byy[..];
    var bxy := Blur(Products(gx, gy), w, h);
    sxy := bxy[..];
  }

  /** The corner threshold: the harrisThresh fraction of the peak response. */
  function CornerThresh(cfg: Config, resp: seq<real>): real
    requires |resp| > 0
  {
    cfg.harrisThresh * Peak(resp)
  }

  /** The Harris corner mask: Sobel of the image, the blurred products of
      the gradients, the response, and suppression against the harrisThresh
      fraction of the peak response.  The ghost results are the response
      buffer and the threshold. */
  method Harris(cfg: Config, img: seq<real>, w: nat, h: nat)
    returns (mask: array<bool>, ghost gx: seq<real>, ghost gy: seq<real>,
             ghost sxx: seq<real>, ghost syy: seq<real>, ghost sxy: seq<real>,
             ghost resp: seq<real>, ghost thresh: real)
    requires |img| == w * h && w >= 2 && h >= 3 && (h <= 6 || w >= 3)
    ensures fresh(mask) && mask.Length == w * h
    ensures |gx| == |gy| == |sxx| == |syy| == |sxy| == |resp| == w * h
    ensures forall x: nat, y: nat | x < w && y < h ::
      Get(gx, w, h, x, y) == SobelXAt(img, w, h, x, y) && Get(gy, w, h, x, y) == SobelYAt(img, w, h, x, y)
    ensures forall x: nat, y: nat | x < w && y < h ::
      && Get(sxx, w, h, x, y) == BlurAt(Products(gx, gx), w, h, x, y)
      && Get(syy, w, h, x, y) == BlurAt(Products(gy, gy), w, h, x, y)
      && Get(sxy, w, h, x, y) == BlurAt(Products(gx, gy), w, h, x, y)
    ensures resp == Responses(sxx, syy, sxy, cfg.harrisK)
    ensures |resp| > 0 && thresh == CornerThresh(cfg, resp)
    ensures forall x: nat, y: nat | x < w && y < h :: Get(mask[..], w, h, x, y) == CornerAt(resp, w, h, thresh, x, y)
  {
    var sx, sy := Sobel(img, w, h);
    var xs, ys := sx[..], sy[..];
    gx, gy := xs, ys;
    var axx, ayy, axy := Tensor(xs, ys, w, h);
    sxx, syy, sxy := axx, ayy, axy;
    var r := Responses(axx, ayy, axy, cfg.harrisK);
    resp := r;
    MulMono(1, h, w);
    var t := CornerThresh(cfg, r);
    thresh := t;
    mask := Suppress(r, w, h, t);
  }
}
