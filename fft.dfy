/** The quadrant shift of a spectrum: every row is rotated left by half its
    length and every column up by half its height, so that the zero
    frequency moves from the corner to the middle; the inverse shift rotates
    by the other half and moves it back. */
module Fft {
  import opened Grid

  /** The rotation amount along a side of length n: half of n, rounded down
      for the forward shift and up for the inverse one. */
  function Mid(n: nat, inverse: bool): (m: nat)
    ensures m <= n
  {
    (n + if inverse then 1 else 0) / 2
  }

  /** Position i of a side of length n rotated by mid. */
  function Rotate(i: nat, n: nat, mid: nat): (j: nat)
    requires n > 0
    ensures j < n
  {
    (i + mid) % n
  }

  /** The forward and the inverse amounts add up to the whole side. */
  lemma MidsComplement(n: nat, inverse: bool)
    ensures Mid(n, inverse) + Mid(n, !inverse) == n
  {
  }

  /** On a side of even length the two amounts coincide. */
  lemma MidsEven(n: nat)
    requires n % 2 == 0
    ensures Mid(n, true) == Mid(n, false)
  {
  }

  /** The rotation never wraps more than once: it adds mid, and takes n
      away again when the sum leaves the side. */
  lemma RotateOnce(i: nat, n: nat, mid: nat)
    requires i < n && mid <= n
    ensures Rotate(i, n, mid) == if i + mid < n then i + mid else i + mid - n
  {
    var v := i + mid;
    var q, r := v / n, v % n;
    assert v == q * n + r && 0 <= r < n;
    if q == 0 {
      assert r == v;
    } else if q == 1 {
      assert r == v - n;
    } else {
      assert false;
    }
  }

  /** Rotating by a and then by b with a + b == n comes back. */
  lemma RotateBack(i: nat, n: nat, a: nat, b: nat)
    requires i < n && a + b == n
    ensures Rotate(Rotate(i, n, a), n, b) == i
  {
    RotateOnce(i, n, a);
    RotateOnce(Rotate(i, n, a), n, b);
  }

  /** The shift of a w-wide, h-high grid: the cell in column x, row y is
      taken from column x + w_mid and row y + h_mid, both wrapping round. */
  function Shift<T>(data: seq<T>, w: nat, h: nat, inverse: bool): (out: seq<T>)
    requires |data| == w * h
    ensures |out| == w * h
  {
    var wm, hm := Mid(w, inverse), Mid(h, inverse);
    seq(w * h, k requires 0 <= k < w * h =>
      RowBelow(w, h, k);
      Get(data, w, h, Rotate(Col(w, k), w, wm), Rotate(Row(w, k), h, hm)))
  }

  /** The cell the shift takes each output cell from. */
  lemma ShiftAt<T>(data: seq<T>, w: nat, h: nat, inverse: bool, x: nat, y: nat)
    requires |data| == w * h && x < w && y < h
    ensures Get(Shift(data, w, h, inverse), w, h, x, y) ==
      Get(data, w, h, Rotate(x, w, Mid(w, inverse)), Rotate(y, h, Mid(h, inverse)))
  {
    IdxBelow(w, h, x, y);
    ColRowOfIdx(w, x, y);
  }

  /** Shifting and then shifting back in the other direction gives the
      grid back, whichever direction comes first. */
  lemma ShiftRoundTrip<T>(data: seq<T>, w: nat, h: nat, inverse: bool)
    requires |data| == w * h
    ensures Shift(Shift(data, w, h, inverse), w, h, !inverse) == data
  {
    var once := Shift(data, w, h, inverse);
    var twice := Shift(once, w, h, !inverse);
    forall x: nat, y: nat | x < w && y < h ensures Get(twice, w, h, x, y) == Get(data, w, h, x, y) {
      var x1, y1 := Rotate(x, w, Mid(w, !inverse)), Rotate(y, h, Mid(h, !inverse));
      ShiftAt(once, w, h, !inverse, x, y);
      ShiftAt(data, w, h, inverse, x1, y1);
      MidsComplement(w, inverse);
      MidsComplement(h, inverse);
      RotateBack(x, w, Mid(w, !inverse), Mid(w, inverse));
      RotateBack(y, h, Mid(h, !inverse), Mid(h, inverse));
    }
    GetExt(twice, data, w, h);
  }

  /** With both sides even the two directions agree, so the shift undoes
      itself. */
  lemma ShiftInvolution<T>(data: seq<T>, w: nat, h: nat)
    requires |data| == w * h && w % 2 == 0 && h % 2 == 0
    ensures Shift(data, w, h, true) == Shift(data, w, h, false)
    ensures Shift(Shift(data, w, h, false), w, h, false) == data
  {
    MidsEven(w);
    MidsEven(h);
    ShiftRoundTrip(data, w, h, false);
  }

  /** The column and row the shift takes the cell (x, y) from. */
  function SourceOf(w: nat, h: nat, inverse: bool, x: nat, y: nat): (p: (nat, nat))
    requires x < w && y < h
    ensures p.0 < w && p.1 < h
  {
    (Rotate(x, w, Mid(w, inverse)), Rotate(y, h, Mid(h, inverse)))
  }

  /** Every cell of the grid feeds exactly one output cell: distinct
      output cells have distinct sources, and the inverse shift's source
      map undoes the forward one, so every cell is a source. */
  lemma ShiftBijective(w: nat, h: nat, inverse: bool)
    ensures forall x1: nat, y1: nat, x2: nat, y2: nat |
      x1 < w && y1 < h && x2 < w && y2 < h && SourceOf(w, h, inverse, x1, y1) == SourceOf(w, h, inverse, x2, y2) ::
      x1 == x2 && y1 == y2
    ensures forall sx: nat, sy: nat | sx < w && sy < h ::
      SourceOf(w, h, inverse, SourceOf(w, h, !inverse, sx, sy).0, SourceOf(w, h, !inverse, sx, sy).1) == (sx, sy)
  {
    MidsComplement(w, inverse);
    MidsComplement(h, inverse);
    forall x1: nat, y1: nat, x2: nat, y2: nat |
      x1 < w && y1 < h && x2 < w && y2 < h && SourceOf(w, h, inverse, x1, y1) == SourceOf(w, h, inverse, x2, y2)
      ensures x1 == x2 && y1 == y2
    {
      RotateBack(x1, w, Mid(w, inverse), Mid(w, !inverse));
      RotateBack(x2, w, Mid(w, inverse), Mid(w, !inverse));
      RotateBack(y1, h, Mid(h, inverse), Mid(h, !inverse));
      RotateBack(y2, h, Mid(h, inverse), Mid(h, !inverse));
    }
    forall sx: nat, sy: nat | sx < w && sy < h
      ensures SourceOf(w, h, inverse, SourceOf(w, h, !inverse, sx, sy).0, SourceOf(w, h, !inverse, sx, sy).1) == (sx, sy)
    {
      RotateBack(sx, w, Mid(w, !inverse), Mid(w, inverse));
      RotateBack(sy, h, Mid(h, !inverse), Mid(h, inverse));
    }
  }
}
