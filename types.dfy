/** The value types shared by the detector's stages: pixel points, the four
    corners of a candidate quad, and the configuration record. */
module Types {

  datatype Option<T> = None | Some(value: T)

  /** An unsigned pixel coordinate pair (x, y). */
  datatype Point = Point(x: nat, y: nat)

  /** The corners of one candidate tag, in the order top-left, top-right,
      bottom-left, bottom-right. */
  datatype Corners = Corners(tl: Point, tr: Point, bl: Point, br: Point)

  /** A quantised gradient direction (dx, dy); both components are i8 in the
      source and only ever -1, 0 or 1. */
  type Orient = (int, int)

  /** The detector's configuration: field of view, Harris constant and
      relative threshold, hysteresis fractions and the three filter flags. */
  datatype Config = Config(
    fovRad: real,
    harrisK: real,
    harrisThresh: real,
    hystLow: real,
    hystHigh: real,
    filterRatios: bool,
    filterAngles: bool,
    filterEnclosed: bool)

  /** The default configuration; the field of view is 75 degrees, written in
      radians with pi to six places since the conversion is floating point. */
  function DefaultConfig(): (c: Config)
    ensures c.filterRatios && c.filterAngles && !c.filterEnclosed
    ensures 0.0 < c.hystLow < c.hystHigh < 1.0
  {
    Config(75.0 * 3.141593 / 180.0, 0.01, 0.05, 0.0125, 0.05, true, true, false)
  }

  /** The results of a square root: never negative. */
  type NonNegReal = r: real | r >= 0.0

  /** The absolute value of a real. */
  function Abs(v: real): (a: real)
    ensures a >= 0.0 && (a == v || a == -v)
  {
    if v < 0.0 then -v else v
  }

  /** The largest value of a non-empty buffer (the fold of max over it). */
  function Peak(s: seq<real>): (m: real)
    requires |s| > 0
    ensures m in s && forall v | v in s :: v <= m
  {
    if |s| == 1 then s[0]
    else
      var m := Peak(s[..|s| - 1]);
      assert forall v | v in s :: v in s[..|s| - 1] || v == s[|s| - 1];
      if s[|s| - 1] > m then s[|s| - 1] else m
  }

  /** The smallest value of a non-empty buffer (the fold of min over it). */
  function Least(s: seq<real>): (m: real)
    requires |s| > 0
    ensures m in s && forall v | v in s :: m <= v
  {
    if |s| == 1 then s[0]
    else
      var m := Least(s[..|s| - 1]);
      assert forall v | v in s :: v in s[..|s| - 1] || v == s[|s| - 1];
      if s[|s| - 1] < m then s[|s| - 1] else m
  }

  /** The four corners are pairwise distinct. */
  predicate Distinct(c: Corners)
  {
    c.tl != c.tr && c.tl != c.bl && c.tl != c.br &&
    c.tr != c.bl && c.tr != c.br && c.bl != c.br
  }

  /** a is obtained from b by deleting elements, keeping the order of the rest. */
  ghost predicate Subseq<T>(a: seq<T>, b: seq<T>)
    decreases |b|
  {
    if a == [] then true
    else if b == [] then false
    else (a[0] == b[0] && Subseq(a[1..], b[1..])) || Subseq(a, b[1..])
  }

  /** Every element of a subsequence is an element of the whole. */
  lemma {:induction false} SubseqMembers<T>(a: seq<T>, b: seq<T>)
    requires Subseq(a, b)
    ensures forall x | x in a :: x in b
    decreases |b|
  {
    if a != [] && b != [] {
      if a[0] == b[0] && Subseq(a[1..], b[1..]) {
        SubseqMembers(a[1..], b[1..]);
        forall x | x in a ensures x in b {
          if x != a[0] {
            assert x in a[1..];
          }
        }
      } else {
        SubseqMembers(a, b[1..]);
      }
    }
  }

  /** Subsequence is transitive, so a chain of filters yields a subsequence. */
  lemma {:induction false} SubseqTrans<T>(a: seq<T>, b: seq<T>, c: seq<T>)
    requires Subseq(a, b) && Subseq(b, c)
    ensures Subseq(a, c)
    decreases |c|
  {
    if a == [] {
    } else if c == [] {
    } else if b[0] == c[0] && Subseq(b[1..], c[1..]) {
      if a[0] == b[0] && Subseq(a[1..], b[1..]) {
        SubseqTrans(a[1..], b[1..], c[1..]);
      } else {
        SubseqTrans(a, b[1..], c[1..]);
      }
    } else {
      SubseqTrans(a, b, c[1..]);
    }
  }

  /** Every sequence is a subsequence of itself. */
  lemma {:induction false} SubseqRefl<T>(a: seq<T>)
    ensures Subseq(a, a)
    decreases |a|
  {
    if a != [] {
      SubseqRefl(a[1..]);
    }
  }

  /** The elements of s at the indices k in [from, |s|) for which keep(k)
      holds, in their original order. */
  function Select<T>(s: seq<T>, keep: nat -> bool, from: nat): (r: seq<T>)
    requires from <= |s|
    ensures |r| <= |s| - from
    ensures forall x | x in r :: x in s[from..]
    decreases |s| - from
  {
    if from == |s| then []
    else if keep(from) then [s[from]] + Select(s, keep, from + 1)
    else Select(s, keep, from + 1)
  }

  /** What Select keeps is a subsequence of the suffix it scans. */
  lemma {:induction false} SelectSubseq<T>(s: seq<T>, keep: nat -> bool, from: nat)
    requires from <= |s|
    ensures Subseq(Select(s, keep, from), s[from..])
    decreases |s| - from
  {
    if from < |s| {
      SelectSubseq(s, keep, from + 1);
      assert s[from..][1..] == s[from + 1..];
      var r := Select(s, keep, from + 1);
      if keep(from) {
        assert ([s[from]] + r)[1..] == r;
      } else if r != [] {
        assert Subseq(r, s[from..]);
      }
    }
  }

  /** An element sits in Select's result exactly when some kept index holds it. */
  lemma {:induction false} SelectMembers<T>(s: seq<T>, keep: nat -> bool, from: nat, x: T)
    requires from <= |s|
    ensures x in Select(s, keep, from) <==> exists k :: from <= k < |s| && keep(k) && s[k] == x
    decreases |s| - from
  {
    if from < |s| {
      SelectMembers(s, keep, from + 1, x);
      var r := Select(s, keep, from + 1);
      if keep(from) {
        assert Select(s, keep, from) == [s[from]] + r;
      } else {
        assert Select(s, keep, from) == r;
      }
      if exists k :: from <= k < |s| && keep(k) && s[k] == x {
        var k :| from <= k < |s| && keep(k) && s[k] == x;
        if k != from {
          assert from + 1 <= k < |s| && keep(k) && s[k] == x;
        }
      }
    }
  }

  /** The elements of s satisfying p, in their original order. */
  function Filter<T>(s: seq<T>, p: T -> bool): (r: seq<T>)
    ensures |r| <= |s|
  {
    if s == [] then [] else (if p(s[0]) then [s[0]] else []) + Filter(s[1..], p)
  }

  /** An element survives the filter exactly when it is in s and passes p. */
  lemma {:induction false} FilterMembers<T>(s: seq<T>, p: T -> bool, x: T)
    ensures x in Filter(s, p) <==> x in s && p(x)
    decreases |s|
  {
    if s != [] {
      FilterMembers(s[1..], p, x);
      assert x in s <==> x == s[0] || x in s[1..];
    }
  }

  /** The filter keeps the order of what it keeps. */
  lemma {:induction false} FilterSubseq<T>(s: seq<T>, p: T -> bool)
    ensures Subseq(Filter(s, p), s)
    decreases |s|
  {
    if s != [] {
      FilterSubseq(s[1..], p);
      var r := Filter(s[1..], p);
      if p(s[0]) {
        assert Filter(s, p) == [s[0]] + r && ([s[0]] + r)[1..] == r;
      } else {
        assert Filter(s, p) == r;
      }
    }
  }
}
