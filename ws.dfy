/** Reusable buffers for the Canny and Harris passes.  A workspace keeps
    one two-dimensional buffer per intermediate image and, before each
    frame, makes sure every buffer has the frame's dimensions: a buffer
    that already has them is kept as it is, any other is replaced by a
    fresh one filled with the element type's zero. */
module Ws {
  import opened Types

  /** A two-dimensional buffer of h rows and w columns, row-major. */
  datatype Buffer<T> = Buffer(h: nat, w: nat, cells: seq<T>)
  {
    predicate Valid()
    {
      |cells| == h * w
    }

    predicate HasDim(h': nat, w': nat)
    {
      h == h' && w == w'
    }
  }

  /** The buffer a default workspace starts with: no rows, no columns. */
  function Empty<T>(): (b: Buffer<T>)
    ensures b.Valid() && b.HasDim(0, 0)
  {
    Buffer(0, 0, [])
  }

  /** A buffer of the given dimensions with every cell equal to fill. */
  function Filled<T>(h: nat, w: nat, fill: T): (b: Buffer<T>)
    ensures b.Valid() && b.HasDim(h, w)
    ensures forall i | 0 <= i < |b.cells| :: b.cells[i] == fill
  {
    Buffer(h, w, seq(h * w, _ => fill))
  }

  /** Make sure a has dimensions (h, w): keep it when it has them, else
      replace it by a buffer of fill.  The fill is 0.0 for f32 buffers,
      false for masks and (0, 0) for orientations. */
  function Ensure<T>(a: Buffer<T>, h: nat, w: nat, fill: T): (r: Buffer<T>)
    ensures r.HasDim(h, w)
    ensures a.HasDim(h, w) ==> r == a
  {
    if a.HasDim(h, w) then a else Filled(h, w, fill)
  }

  /** A buffer Ensure replaces is a well-formed buffer of fill, and a
      well-formed buffer stays well formed. */
  lemma EnsureFills<T>(a: Buffer<T>, h: nat, w: nat, fill: T)
    ensures var r := Ensure(a, h, w, fill);
      && (!a.HasDim(h, w) ==> r.Valid() && forall i | 0 <= i < |r.cells| :: r.cells[i] == fill)
      && (a.Valid() ==> r.Valid())
  {
  }

  /** Ensuring twice with the same dimensions is ensuring once. */
  lemma EnsureIdempotent<T>(a: Buffer<T>, h: nat, w: nat, fill: T)
    ensures Ensure(Ensure(a, h, w, fill), h, w, fill) == Ensure(a, h, w, fill)
  {
  }

  /** The buffers of one Canny pass. */
  class CannyWorkspace {
    var bh: Buffer<real>
    var blur: Buffer<real>
    var gx: Buffer<real>
    var gy: Buffer<real>
    var mag: Buffer<real>
    var orient: Buffer<Orient>
    var supp: Buffer<real>
    var strong: Buffer<bool>
    var weak: Buffer<bool>
    var edges: Buffer<bool>

    /** Every buffer has dimensions (h, w). */
    predicate Sized(h: nat, w: nat)
      reads this
    {
      && bh.HasDim(h, w) && blur.HasDim(h, w) && gx.HasDim(h, w) && gy.HasDim(h, w)
      && mag.HasDim(h, w) && orient.HasDim(h, w) && supp.HasDim(h, w)
      && strong.HasDim(h, w) && weak.HasDim(h, w) && edges.HasDim(h, w)
    }

    /** The default workspace: every buffer empty. */
    constructor()
      ensures Sized(0, 0)
    {
      bh, blur, gx, gy, mag := Empty(), Empty(), Empty(), Empty(), Empty();
      orient, supp := Empty(), Empty();
      strong, weak, edges := Empty(), Empty(), Empty();
    }

    /** Size the buffers of the two blur passes. */
    method EnsureSmoothing(h: nat, w: nat)
      modifies this`bh, this`blur
      ensures bh == Ensure(old(bh), h, w, 0.0)
      ensures blur == Ensure(old(blur), h, w, 0.0)
    {
      bh := Ensure(bh, h, w, 0.0);
      blur := Ensure(blur, h, w, 0.0);
    }

    /** Size the buffers of the Sobel gradients, magnitude and orientation. */
    method EnsureGradients(h: nat, w: nat)
      modifies this`gx, this`gy, this`mag, this`orient
      ensures gx == Ensure(old(gx), h, w, 0.0)
      ensures gy == Ensure(old(gy), h, w, 0.0)
      ensures mag == Ensure(old(mag), h, w, 0.0)
      ensures orient == Ensure(old(orient), h, w, (0, 0))
    {
      gx := Ensure(gx, h, w, 0.0);
      gy := Ensure(gy, h, w, 0.0);
      mag := Ensure(mag, h, w, 0.0);
      orient := Ensure(orient, h, w, (0, 0));
    }

    /** Size the buffers of the thinned magnitude. */
    method EnsureSuppressed(h: nat, w: nat)
      modifies this`supp
      ensures supp == Ensure(old(supp), h, w, 0.0)
    {
      supp := Ensure(supp, h, w, 0.0);
    }

    /** Size the buffers of the threshold masks and the edge map. */
    method EnsureMasks(h: nat, w: nat)
      modifies this`strong, this`weak, this`edges
      ensures strong == Ensure(old(strong), h, w, false)
      ensures weak == Ensure(old(weak), h, w, false)
      ensures edges == Ensure(old(edges), h, w, false)
    {
      strong := Ensure(strong, h, w, false);
      weak := Ensure(weak, h, w, false);
      edges := Ensure(edges, h, w, false);
    }

    /** Size every buffer for an h x w frame, keeping those already sized. */
    method EnsureSize(h: nat, w: nat)
      modifies this
      ensures Sized(h, w)
      ensures bh == Ensure(old(bh), h, w, 0.0) && blur == Ensure(old(blur), h, w, 0.0)
      ensures gx == Ensure(old(gx), h, w, 0.0) && gy == Ensure(old(gy), h, w, 0.0)
      ensures mag == Ensure(old(mag), h, w, 0.0) && orient == Ensure(old(orient), h, w, (0, 0))
      ensures supp == Ensure(old(supp), h, w, 0.0) && strong == Ensure(old(strong), h, w, false)
      ensures weak == Ensure(old(weak), h, w, false) && edges == Ensure(old(edges), h, w, false)
      ensures old(Sized(h, w)) ==> unchanged(this)
    {
      EnsureSmoothing(h, w);
      EnsureGradients(h, w);
      EnsureSuppressed(h, w);
      EnsureMasks(h, w);
    }
  }

  /** The buffers of one Harris pass. */
  class HarrisWorkspace {
    var gx: Buffer<real>
    var gy: Buffer<real>
    var xx: Buffer<real>
    var yy: Buffer<real>
    var xy: Buffer<real>
    var bh1: Buffer<real>
    var bh2: Buffer<real>
    var bh3: Buffer<real>
    var sxx: Buffer<real>
    var syy: Buffer<real>
    var sxy: Buffer<real>
    var resp: Buffer<real>
    var corners: Buffer<bool>

    /** Every buffer has dimensions (h, w). */
    predicate Sized(h: nat, w: nat)
      reads this
    {
      && gx.HasDim(h, w) && gy.HasDim(h, w) && xx.HasDim(h, w) && yy.HasDim(h, w) && xy.HasDim(h, w)
      && bh1.HasDim(h, w) && bh2.HasDim(h, w) && bh3.HasDim(h, w)
      && sxx.HasDim(h, w) && syy.HasDim(h, w) && sxy.HasDim(h, w) && resp.HasDim(h, w)
      && corners.HasDim(h, w)
    }

    /** The default workspace: every buffer empty. */
    constructor()
      ensures Sized(0, 0)
    {
      gx, gy, xx, yy, xy := Empty(), Empty(), Empty(), Empty(), Empty();
      bh1, bh2, bh3 := Empty(), Empty(), Empty();
      sxx, syy, sxy, resp := Empty(), Empty(), Empty(), Empty();
      corners := Empty();
    }

    /** Size the buffers of the Sobel gradients. */
    method EnsureGradients(h: nat, w: nat)
      modifies this`gx, this`gy
      ensures gx == Ensure(old(gx), h, w, 0.0)
      ensures gy == Ensure(old(gy), h, w, 0.0)
    {
      gx := Ensure(gx, h, w, 0.0);
      gy := Ensure(gy, h, w, 0.0);
    }

    /** Size the buffers of the gradient products. */
    method EnsureProducts(h: nat, w: nat)
      modifies this`xx, this`yy, this`xy
      ensures xx == Ensure(old(xx), h, w, 0.0)
      ensures yy == Ensure(old(yy), h, w, 0.0)
      ensures xy == Ensure(old(xy), h, w, 0.0)
    {
      xx := Ensure(xx, h, w, 0.0);
      yy := Ensure(yy, h, w, 0.0);
      xy := Ensure(xy, h, w, 0.0);
    }

    /** Size the buffers of the horizontal blur passes. */
    method EnsureRowBlurs(h: nat, w: nat)
      modifies this`bh1, this`bh2, this`bh3
      ensures bh1 == Ensure(old(bh1), h, w, 0.0)
      ensures bh2 == Ensure(old(bh2), h, w, 0.0)
      ensures bh3 == Ensure(old(bh3), h, w, 0.0)
    {
      bh1 := Ensure(bh1, h, w, 0.0);
      bh2 := Ensure(bh2, h, w, 0.0);
      bh3 := Ensure(bh3, h, w, 0.0);
    }

    /** Size the buffers of the blurred structure tensor. */
    method EnsureTensor(h: nat, w: nat)
      modifies this`sxx, this`syy, this`sxy
      ensures sxx == Ensure(old(sxx), h, w, 0.0)
      ensures syy == Ensure(old(syy), h, w, 0.0)
      ensures sxy == Ensure(old(sxy), h, w, 0.0)
    {
      sxx := Ensure(sxx, h, w, 0.0);
      syy := Ensure(syy, h, w, 0.0);
      sxy := Ensure(sxy, h, w, 0.0);
    }

    /** Size the buffers of the response and the corner mask. */
    method EnsureResponse(h: nat, w: nat)
      modifies this`resp, this`corners
      ensures resp == Ensure(old(resp), h, w, 0.0)
      ensures corners == Ensure(old(corners), h, w, false)
    {
      resp := Ensure(resp, h, w, 0.0);
      corners := Ensure(corners, h, w, false);
    }

    /** Size every buffer for an h x w frame, keeping those already sized. */
    method EnsureSize(h: nat, w: nat)
      modifies this
      ensures Sized(h, w)
      ensures gx == Ensure(old(gx), h, w, 0.0) && gy == Ensure(old(gy), h, w, 0.0)
      ensures xx == Ensure(old(xx), h, w, 0.0) && yy == Ensure(old(yy), h, w, 0.0)
      ensures xy == Ensure(old(xy), h, w, 0.0) && bh1 == Ensure(old(bh1), h, w, 0.0)
      ensures bh2 == Ensure(old(bh2), h, w, 0.0) && bh3 == Ensure(old(bh3), h, w, 0.0)
      ensures sxx == Ensure(old(sxx), h, w, 0.0) && syy == Ensure(old(syy), h, w, 0.0)
      ensures sxy == Ensure(old(sxy), h, w, 0.0) && resp == Ensure(old(resp), h, w, 0.0)
      ensures corners == Ensure(old(corners), h, w, false)
      ensures old(Sized(h, w)) ==> unchanged(this)
    {
      EnsureGradients(h, w);
      EnsureProducts(h, w);
      EnsureRowBlurs(h, w);
      EnsureTensor(h, w);
      EnsureResponse(h, w);
    }
  }
}
