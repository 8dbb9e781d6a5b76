/** The image operators: a separable 5-tap binomial blur and the 3x3 Sobel
    gradient, both on flat row-major buffers of reals. */
module Oper {
  import opened Grid

  /** (x, y) lies at least m cells inside every border. */
  predicate Interior(w: nat, h: nat, x: nat, y: nat, m: nat)
  {
    m <= x && x + m < w && m <= y && y + m < h
  }

  /** Moving by (dx, dy) moves the flat index by dx + dy * w. */
  lemma IdxShift(w: nat, x: nat, y: nat, dx: int, dy: int)
    requires x + dx >= 0 && y + dy >= 0
    ensures Idx(w, x + dx, y + dy) == Idx(w, x, y) + dx + dy * w
  {
    assert (y + dy) * w == y * w + dy * w;
  }

  /** The binomial weights 1, 4, 6, 4, 1 over 16. */
  function Taps(a: real, b: real, c: real, d: real, e: real): real
  {
    (a + 4.0 * b + 6.0 * c + 4.0 * d + e) / 16.0
  }

  /** The weights sum to one: five equal samples blur to themselves. */
  lemma TapsConstant(c: real)
    ensures Taps(c, c, c, c, c) == c
  {
  }

  /** The horizontal pass at (x, y): the taps over columns x - 2 .. x + 2,
      and zero within two columns of the left or right border. */
  function HBlurAt(img: seq<real>, w: nat, h: nat, x: nat, y: nat): (v: real)
    requires |img| == w * h && x < w && y < h
    ensures (x < 2 || x + 2 >= w) ==> v == 0.0
  {
    if 2 <= x && x + 2 < w then
      Taps(Get(img, w, h, x - 2, y), Get(img, w, h, x - 1, y), Get(img, w, h, x, y),
           Get(img, w, h, x + 1, y), Get(img, w, h, x + 2, y))
    else 0.0
  }

  /** The blurred value at (x, y): the vertical taps over the horizontal
      pass at rows y - 2 .. y + 2, and zero within two rows of the top or
      bottom border. */
  function BlurAt(img: seq<real>, w: nat, h: nat, x: nat, y: nat): (v: real)
    requires |img| == w * h && x < w && y < h
  {
    if 2 <= y && y + 2 < h then
      Taps(HBlurAt(img, w, h, x, y - 2), HBlurAt(img, w, h, x, y - 1), HBlurAt(img, w, h, x, y),
           HBlurAt(img, w, h, x, y + 1), HBlurAt(img, w, h, x, y + 2))
    else 0.0
  }

  /** The blur vanishes on the two-cell frame. */
  lemma BlurBorder(img: seq<real>, w: nat, h: nat, x: nat, y: nat)
    requires |img| == w * h && x < w && y < h && !Interior(w, h, x, y, 2)
    ensures BlurAt(img, w, h, x, y) == 0.0
  {
    if 2 <= y && y + 2 < h {
      assert HBlurAt(img, w, h, x, y - 2) == 0.0 && HBlurAt(img, w, h, x, y - 1) == 0.0;
      assert HBlurAt(img, w, h, x, y + 2) == 0.0 && HBlurAt(img, w, h, x, y + 1) == 0.0;
      TapsConstant(0.0);
    }
  }

  /** Every cell of a constant image holds the constant. */
  lemma GetConstant(img: seq<real>, w: nat, h: nat, c: real)
    requires |img| == w * h && forall i | 0 <= i < |img| :: img[i] == c
    ensures forall x: nat, y: nat | x < w && y < h :: Get(img, w, h, x, y) == c
  {
    forall x: nat, y: nat | x < w && y < h ensures Get(img, w, h, x, y) == c {
      IdxBelow(w, h, x, y);
    }
  }

  /** A constant image blurs to itself away from the frame. */
  lemma BlurConstant(img: seq<real>, w: nat, h: nat, c: real, x: nat, y: nat)
    requires |img| == w * h && forall i | 0 <= i < |img| :: img[i] == c
    requires x < w && y < h && Interior(w, h, x, y, 2)
    ensures BlurAt(img, w, h, x, y) == c
  {
    GetConstant(img, w, h, c);
    TapsConstant(c);
    assert HBlurAt(img, w, h, x, y - 2) == c && HBlurAt(img, w, h, x, y + 2) == c;
    assert HBlurAt(img, w, h, x, y - 1) == c && HBlurAt(img, w, h, x, y + 1) == c;
    assert HBlurAt(img, w, h, x, y) == c;
  }

  /** The vertical taps over rows y - 2 .. y + 2 of the buffer b, and
      zero within two rows of the top or bottom border. */
  function VBlurAt(b: seq<real>, w: nat, h: nat, x: nat, y: nat): real
    requires |b| == w * h && x < w && y < h
  {
    if 2 <= y && y + 2 < h then
      Taps(Get(b, w, h, x, y - 2), Get(b, w, h, x, y - 1), Get(b, w, h, x, y),
           Get(b, w, h, x, y + 1), Get(b, w, h, x, y + 2))
    else 0.0
  }

  /** The horizontal pass: every row, columns 2 .. w - 3, into a zeroed
      buffer. */
  method BlurRows(img: seq<real>, w: nat, h: nat) returns (bs: array<real>)
    requires |img| == w * h
    ensures fresh(bs) && bs.Length == w * h
    ensures forall x: nat, y: nat | x < w && y < h :: Get(bs[..], w, h, x, y) == HBlurAt(img, w, h, x, y)
  {
    bs := new real[w * h](_ => 0.0);
    forall x: nat, y: nat | x < w && y < h ensures Get(bs[..], w, h, x, y) == 0.0 {
      IdxBelow(w, h, x, y);
    }
    for y := 0 to h
      invariant forall x': nat, y': nat | x' < w && y' < y :: Get(bs[..], w, h, x', y') == HBlurAt(img, w, h, x', y')
      invariant forall x': nat, y': nat | x' < w && y <= y' < h :: Get(bs[..], w, h, x', y') == 0.0
    {
      var x := 2;
      while x + 2 < w
        invariant 2 <= x
        invariant forall x': nat, y': nat | x' < w && y' < h && (y' < y || (y' == y && x' < x)) ::
          Get(bs[..], w, h, x', y') == HBlurAt(img, w, h, x', y')
        invariant forall x': nat, y': nat | x' < w && y' < h && (y' > y || (y' == y && x' >= x)) ::
          Get(bs[..], w, h, x', y') == 0.0
      {
        var i := x + y * w;
        IdxBelow(w, h, x, y);
        IdxShift(w, x, y, -2, 0);
        IdxShift(w, x, y, 2, 0);
        IdxBelow(w, h, x + 2, y);
        var v := Taps(img[i - 2], img[i - 1], img[i], img[i + 1], img[i + 2]);
        assert v == HBlurAt(img, w, h, x, y);
        ghost var b0 := bs[..];
        bs[i] := v;
        assert bs[..] == Set(b0, w, h, x, y, v);
        x := x + 1;
      }
    }
  }

  /** The vertical pass: rows 2 .. h - 3, every column, into a zeroed
      buffer. */
  method BlurColumns(bs: seq<real>, w: nat, h: nat) returns (out: array<real>)
    requires |bs| == w * h
    ensures fresh(out) && out.Length == w * h
    ensures forall x: nat, y: nat | x < w && y < h :: Get(out[..], w, h, x, y) == VBlurAt(bs, w, h, x, y)
  {
    out := new real[w * h](_ => 0.0);
    forall x: nat, y: nat | x < w && y < h ensures Get(out[..], w, h, x, y) == 0.0 {
      IdxBelow(w, h, x, y);
    }
    var y := 2;
    while y + 2 < h
      invariant 2 <= y
      invariant forall x': nat, y': nat | x' < w && y' < y && y' < h :: Get(out[..], w, h, x', y') == VBlurAt(bs, w, h, x', y')
      invariant forall x': nat, y': nat | x' < w && y <= y' < h :: Get(out[..], w, h, x', y') == 0.0
    {
      for x := 0 to w
        invariant forall x': nat, y': nat | x' < w && y' < h && (y' < y || (y' == y && x' < x)) ::
          Get(out[..], w, h, x', y') == VBlurAt(bs, w, h, x', y')
        invariant forall x': nat, y': nat | x' < w && y' < h && (y' > y || (y' == y && x' >= x)) ::
          Get(out[..], w, h, x', y') == 0.0
      {
        var i := x + y * w;
        IdxBelow(w, h, x, y);
        IdxShift(w, x, y, 0, -2);
        IdxShift(w, x, y, 0, -1);
        IdxShift(w, x, y, 0, 1);
        IdxShift(w, x, y, 0, 2);
        IdxBelow(w, h, x, y + 2);
        var v := Taps(bs[i - 2 * w], bs[i - w], bs[i], bs[i + w], bs[i + 2 * w]);
        assert v == VBlurAt(bs, w, h, x, y);
        ghost var o0 := out[..];
        out[i] := v;
        assert out[..] == Set(o0, w, h, x, y, v);
      }
      y := y + 1;
    }
  }

  /** Blurs img: the horizontal pass over every row into a zeroed buffer,
      then the vertical pass over the inner rows into a second one. */
  method Blur(img: seq<real>, w: nat, h: nat) returns (out: array<real>)
    requires |img| == w * h && w >= 2 && h >= 2
    ensures fresh(out) && out.Length == w * h
    ensures forall x: nat, y: nat | x < w && y < h :: Get(out[..], w, h, x, y) == BlurAt(img, w, h, x, y)
  {
    var bs := BlurRows(img, w, h);
    out := BlurColumns(bs[..], w, h);
    forall x: nat, y: nat | x < w && y < h ensures Get(out[..], w, h, x, y) == BlurAt(img, w, h, x, y) {
      if 2 <= y && y + 2 < h {
        assert Get(bs[..], w, h, x, y - 2) == HBlurAt(img, w, h, x, y - 2);
        assert Get(bs[..], w, h, x, y - 1) == HBlurAt(img, w, h, x, y - 1);
        assert Get(bs[..], w, h, x, y + 1) == HBlurAt(img, w, h, x, y + 1);
        assert Get(bs[..], w, h, x, y + 2) == HBlurAt(img, w, h, x, y + 2);
      }
    }
  }

  /** The horizontal Sobel response at (x, y): the right column, weighted
      1, 2, 1, minus the left column; zero on the one-cell frame. */
  function SobelXAt(img: seq<real>, w: nat, h: nat, x: nat, y: nat): (v: real)
    requires |img| == w * h && x < w && y < h
    ensures !Interior(w, h, x, y, 1) ==> v == 0.0
  {
    if Interior(w, h, x, y, 1) then
      (Get(img, w, h, x + 1, y - 1) + 2.0 * Get(img, w, h, x + 1, y) + Get(img, w, h, x + 1, y + 1)) -
      (Get(img, w, h, x - 1, y - 1) + 2.0 * Get(img, w, h, x - 1, y) + Get(img, w, h, x - 1, y + 1))
    else 0.0
  }

  /** The vertical Sobel response at (x, y): the bottom row, weighted
      1, 2, 1, minus the top row; zero on the one-cell frame. */
  function SobelYAt(img: seq<real>, w: nat, h: nat, x: nat, y: nat): (v: real)
    requires |img| == w * h && x < w && y < h
    ensures !Interior(w, h, x, y, 1) ==> v == 0.0
  {
    if Interior(w, h, x, y, 1) then
      (Get(img, w, h, x - 1, y + 1) + 2.0 * Get(img, w, h, x, y + 1) + Get(img, w, h, x + 1, y + 1)) -
      (Get(img, w, h, x - 1, y - 1) + 2.0 * Get(img, w, h, x, y - 1) + Get(img, w, h, x + 1, y - 1))
    else 0.0
  }

  /** A constant image has no gradient. */
  lemma SobelConstant(img: seq<real>, w: nat, h: nat, c: real, x: nat, y: nat)
    requires |img| == w * h && forall i | 0 <= i < |img| :: img[i] == c
    requires x < w && y < h
    ensures SobelXAt(img, w, h, x, y) == 0.0 && SobelYAt(img, w, h, x, y) == 0.0
  {
    GetConstant(img, w, h, c);
  }

  /** The grid img of width w and height h mirrored about its diagonal:
      a grid of width h and height w. */
  function Transpose(img: seq<real>, w: nat, h: nat): (t: seq<real>)
    requires |img| == w * h
    ensures |t| == h * w
    ensures forall x: nat, y: nat | x < w && y < h :: Get(t, h, w, y, x) == Get(img, w, h, x, y)
  {
    var t := seq(h * w, i requires 0 <= i < h * w =>
      RowBelow(h, w, i);
      IdxBelow(w, h, Row(h, i), Col(h, i));
      img[Idx(w, Row(h, i), Col(h, i))]);
    forall x: nat, y: nat | x < w && y < h ensures Get(t, h, w, y, x) == Get(img, w, h, x, y) {
      IdxBelow(h, w, y, x);
      ColRowOfIdx(h, y, x);
    }
    t
  }

  /** The vertical response is the horizontal response of the transposed
      image, so the two kernels are one kernel in two orientations. */
  lemma SobelTranspose(img: seq<real>, w: nat, h: nat, x: nat, y: nat)
    requires |img| == w * h && x < w && y < h
    ensures SobelYAt(img, w, h, x, y) == SobelXAt(Transpose(img, w, h), h, w, y, x)
  {
  }

  /** The Sobel pass: both gradients over the inner cells, into zeroed
      buffers. */
  method Sobel(img: seq<real>, w: nat, h: nat) returns (gx: array<real>, gy: array<real>)
    requires |img| == w * h && h >= 1 && (h <= 2 || w >= 1)
    ensures fresh(gx) && fresh(gy) && gx.Length == w * h && gy.Length == w * h
    ensures forall x: nat, y: nat | x < w && y < h ::
      Get(gx[..], w, h, x, y) == SobelXAt(img, w, h, x, y) && Get(gy[..], w, h, x, y) == SobelYAt(img, w, h, x, y)
  {
    gx := new real[w * h](_ => 0.0);
    gy := new real[w * h](_ => 0.0);
    forall x: nat, y: nat | x < w && y < h ensures Get(gx[..], w, h, x, y) == 0.0 && Get(gy[..], w, h, x, y) == 0.0 {
      IdxBelow(w, h, x, y);
    }
    var y := 1;
    while y + 1 < h
      invariant 1 <= y && gx != gy
      invariant forall x': nat, y': nat | x' < w && y' < h && y' < y ::
        Get(gx[..], w, h, x', y') == SobelXAt(img, w, h, x', y') && Get(gy[..], w, h, x', y') == SobelYAt(img, w, h, x', y')
      invariant forall x': nat, y': nat | x' < w && y <= y' < h ::
        Get(gx[..], w, h, x', y') == 0.0 && Get(gy[..], w, h, x', y') == 0.0
    {
      var x := 1;
      while x + 1 < w
        invariant 1 <= x
        invariant forall x': nat, y': nat | x' < w && y' < h && (y' < y || (y' == y && x' < x)) ::
          Get(gx[..], w, h, x', y') == SobelXAt(img, w, h, x', y') && Get(gy[..], w, h, x', y') == SobelYAt(img, w, h, x', y')
        invariant forall x': nat, y': nat | x' < w && y' < h && (y' > y || (y' == y && x' >= x)) ::
          Get(gx[..], w, h, x', y') == 0.0 && Get(gy[..], w, h, x', y') == 0.0
      {
        var i := x + y * w;
        IdxBelow(w, h, x, y);
        IdxBelow(w, h, x + 1, y + 1);
        IdxShift(w, x, y, -1, -1);
        IdxShift(w, x, y, 0, -1);
        IdxShift(w, x, y, 1, -1);
        IdxShift(w, x, y, -1, 1);
        IdxShift(w, x, y, 0, 1);
        IdxShift(w, x, y, 1, 1);
        var vx := (img[i + 1 - w] + 2.0 * img[i + 1] + img[i + 1 + w]) - (img[i - 1 - w] + 2.0 * img[i - 1] + img[i - 1 + w]);
        var vy := (img[i - 1 + w] + 2.0 * img[i + w] + img[i + 1 + w]) - (img[i - 1 - w] + 2.0 * img[i - w] + img[i + 1 - w]);
        assert vx == SobelXAt(img, w, h, x, y) && vy == SobelYAt(img, w, h, x, y);
        ghost var x0, y0 := gx[..], gy[..];
        gx[i] := vx;
        gy[i] := vy;
        assert gx[..] == Set(x0, w, h, x, y, vx) && gy[..] == Set(y0, w, h, x, y, vy);
        x := x + 1;
      }
      y := y + 1;
    }
  }
}
