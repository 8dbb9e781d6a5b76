/** Flat, row-major pixel grids.  The detector stores every image, mask and
    gradient buffer as one vector of w * h cells; the cell in column x and
    row y of a w-wide grid lives at index x + y * w. */
module Grid {

  /** The flat index of column x, row y. */
  function Idx(w: nat, x: nat, y: nat): nat
  {
    x + y * w
  }

  /** The column of flat index i. */
  function Col(w: nat, i: nat): nat
    requires w > 0
  {
    i % w
  }

  /** The row of flat index i. */
  function Row(w: nat, i: nat): nat
    requires w > 0
  {
    i / w
  }

  /** The cell in column x, row y of a w-by-h grid (ndarray's `a[[y, x]]`). */
  function Get<T>(s: seq<T>, w: nat, h: nat, x: nat, y: nat): T
    requires |s| == w * h && x < w && y < h
  {
    IdxBelow(w, h, x, y);
    s[Idx(w, x, y)]
  }

  /** The grid s with the cell in column x, row y replaced by v (ndarray's
      `a[[y, x]] = v`); every other cell keeps its value. */
  function Set<T>(s: seq<T>, w: nat, h: nat, x: nat, y: nat, v: T): (r: seq<T>)
    requires |s| == w * h && x < w && y < h
    ensures |r| == |s|
    ensures Get(r, w, h, x, y) == v
    ensures forall x': nat, y': nat | x' < w && y' < h && (x' != x || y' != y) ::
      Get(r, w, h, x', y') == Get(s, w, h, x', y')
  {
    IdxBelow(w, h, x, y);
    var r := s[Idx(w, x, y) := v];
    forall x': nat, y': nat | x' < w && y' < h && (x' != x || y' != y)
      ensures Get(r, w, h, x', y') == Get(s, w, h, x', y')
    {
      IdxBelow(w, h, x', y');
      IdxDistinct(w, h, x, y, x', y');
    }
    r
  }

  /** Distinct cells of a grid have distinct flat indices. */
  lemma IdxDistinct(w: nat, h: nat, x: nat, y: nat, x': nat, y': nat)
    requires x < w && x' < w && (x' != x || y' != y)
    ensures Idx(w, x', y') != Idx(w, x, y)
  {
    ColRowOfIdx(w, x, y);
    ColRowOfIdx(w, x', y');
  }

  /** Column and row recover the coordinates a flat index was built from. */
  lemma ColRowOfIdx(w: nat, x: nat, y: nat)
    requires x < w
    ensures Col(w, Idx(w, x, y)) == x && Row(w, Idx(w, x, y)) == y
  {
    var i := Idx(w, x, y);
    var q, r := i / w, i % w;
    assert i == q * w + r && 0 <= r < w;
    if q < y {
      MulMono(q + 1, y, w);
      assert false;
    } else if q > y {
      MulMono(y + 1, q, w);
      assert false;
    }
  }

  /** A flat index is rebuilt from its column and row. */
  lemma IdxOfColRow(w: nat, i: nat)
    requires w > 0
    ensures Col(w, i) < w && Idx(w, Col(w, i), Row(w, i)) == i
  {
  }

  /** Every cell of a w-by-h grid has an index below w * h. */
  lemma IdxBelow(w: nat, h: nat, x: nat, y: nat)
    requires x < w && y < h
    ensures Idx(w, x, y) < w * h
  {
    MulMono(y + 1, h, w);
  }

  /** Every index below w * h lies in one of the h rows. */
  lemma RowBelow(w: nat, h: nat, i: nat)
    requires i < w * h
    ensures w > 0 && Col(w, i) < w && Row(w, i) < h
  {
    IdxOfColRow(w, i);
    if Row(w, i) >= h {
      MulMono(h, Row(w, i), w);
    }
  }

  /** Two grids of the same dimensions agreeing on every cell are equal. */
  lemma GetExt<T>(a: seq<T>, b: seq<T>, w: nat, h: nat)
    requires |a| == w * h && |b| == w * h
    requires forall x: nat, y: nat | x < w && y < h :: Get(a, w, h, x, y) == Get(b, w, h, x, y)
    ensures a == b
  {
    forall i | 0 <= i < |a| ensures a[i] == b[i] {
      RowBelow(w, h, i);
      assert Get(a, w, h, Col(w, i), Row(w, i)) == Get(b, w, h, Col(w, i), Row(w, i));
    }
  }

  lemma MulMono(a: nat, b: nat, c: nat)
    requires a <= b
    ensures a * c <= b * c
  {
  }
}
