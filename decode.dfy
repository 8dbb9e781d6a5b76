/** Tag decoding: sampling the 6x6 interior of a candidate quad through the
    homography of its corners, binarising it, and matching the 36-bit
    pattern, in each of the four rotations, against the codebook. */
module Decode {
  import opened Grid
  import opened Types

  /** A sample above this fraction of the contrast range is a set bit. */
  const BitThresh: real := 0.5

  /** The codebook: tag id i is the pattern Codes[i]. */
  const Codes: seq<nat> := [
    57401312644,
    58383764297,
    59366215950,
    61331119256,
    63296022562,
    65260925868,
    1453707397,
    4401062356,
    9313320621,
    10295772274,
    14225578886
  ]

  function Pow2(n: nat): (p: nat)
    ensures p >= 1
  {
    if n == 0 then 1 else 2 * Pow2(n - 1)
  }

  /** Every code fits in 36 bits. */
  lemma CodesBelow()
    ensures forall i | 0 <= i < |Codes| :: Codes[i] < Pow2(36)
  {
    assert Pow2(6) == 64 by {
      assert Pow2(1) == 2 && Pow2(2) == 4 && Pow2(3) == 8 && Pow2(4) == 16 && Pow2(5) == 32;
    }
    PowAdd(6, 6);
    PowAdd(12, 12);
    PowAdd(24, 12);
    assert Pow2(36) == 68719476736;
  }

  /** The eleven codes are pairwise distinct, so a pattern names at most one
      tag. */
  lemma CodesDistinct()
    ensures |Codes| == 11 && Unique(Codes)
  {
  }

  lemma {:induction false} PowAdd(a: nat, b: nat)
    ensures Pow2(a + b) == Pow2(a) * Pow2(b)
    decreases b
  {
    if b > 0 {
      PowAdd(a, b - 1);
      assert Pow2(a + b) == 2 * Pow2(a + b - 1);
    }
  }

  /** The bits folded into a number, first bit most significant: each step
      shifts the accumulator left and ors in the next bit. */
  function Pack(bits: seq<bool>): (n: nat)
    ensures n < Pow2(|bits|)
  {
    if |bits| == 0 then 0
    else 2 * Pack(bits[..|bits| - 1]) + (if bits[|bits| - 1] then 1 else 0)
  }

  /** The inverse of Pack for a given width: the len low bits of n, most
      significant first. */
  function Unpack(n: nat, len: nat): (bits: seq<bool>)
    ensures |bits| == len
  {
    if len == 0 then [] else Unpack(n / 2, len - 1) + [n % 2 == 1]
  }

  /** Unpacking a packed grid gives the grid back. */
  lemma {:induction false} UnpackPack(bits: seq<bool>)
    ensures Unpack(Pack(bits), |bits|) == bits
    decreases |bits|
  {
    if |bits| > 0 {
      var init := bits[..|bits| - 1];
      var b := if bits[|bits| - 1] then 1 else 0;
      assert (2 * Pack(init) + b) / 2 == Pack(init);
      assert (2 * Pack(init) + b) % 2 == b;
      UnpackPack(init);
      assert bits == init + [bits[|bits| - 1]];
    }
  }

  /** Two grids of the same size with the same pattern are equal. */
  lemma PackInjective(a: seq<bool>, b: seq<bool>)
    requires |a| == |b| && Pack(a) == Pack(b)
    ensures a == b
  {
    UnpackPack(a);
    UnpackPack(b);
  }

  /** The first bit is the most significant: it weighs 2^(n-1) in the
      pattern of an n-bit grid, and the rest packs as before. */
  lemma {:induction false} PackFirst(bits: seq<bool>)
    requires |bits| > 0
    ensures Pack(bits) == (if bits[0] then Pow2(|bits| - 1) else 0) + Pack(bits[1..])
    decreases |bits|
  {
    if |bits| > 1 {
      var init := bits[..|bits| - 1];
      PackFirst(init);
      assert init[1..] == bits[1..][..|bits| - 2];
      assert bits[1..][|bits| - 2] == bits[|bits| - 1];
    }
  }

  /** No value occurs twice in s. */
  predicate Unique(s: seq<nat>)
  {
    forall i, j | 0 <= i < j < |s| :: s[i] != s[j]
  }

  /** The first position of v in s, as Iterator::position finds it. */
  function IndexOf(s: seq<nat>, v: nat): (r: Option<nat>)
    ensures r.None? <==> v !in s
    ensures r.Some? ==> r.value < |s| && s[r.value] == v && v !in s[..r.value]
  {
    if |s| == 0 then None
    else if s[0] == v then Some(0)
    else
      match IndexOf(s[1..], v)
      case None => None
      case Some(i) =>
        assert s[1..][..i] == s[1..i + 1];
        assert s[..i + 1] == [s[0]] + s[1..i + 1];
        Some(i + 1)
  }

  /** In a codebook without repeats the position of a code is its only
      index. */
  lemma IndexOfUnique(s: seq<nat>, v: nat, i: nat)
    requires Unique(s)
    ensures IndexOf(s, v) == Some(i) <==> i < |s| && s[i] == v
  {
    if i < |s| && s[i] == v {
      assert IndexOf(s, v).Some?;
    }
  }

  /** The index in the codebook of the grid's pattern, if it is a code. */
  function Lookup(codes: seq<nat>, bits: seq<bool>): (r: Option<nat>)
    ensures r.None? <==> Pack(bits) !in codes
    ensures r.Some? ==> r.value < |codes| && codes[r.value] == Pack(bits)
  {
    IndexOf(codes, Pack(bits))
  }

  /** The grid turned a quarter: out[i][j] = a[5 - j][i], that is, rows
      reversed and then transposed.  Row i, column j of the grid is
      Get(g, 6, 6, j, i). */
  function Rot90<T>(g: seq<T>): (r: seq<T>)
    requires |g| == 36
    ensures |r| == 36
    ensures forall i: nat, j: nat | i < 6 && j < 6 :: Get(r, 6, 6, j, i) == Get(g, 6, 6, i, 5 - j)
  {
    var r := seq(36, k requires 0 <= k < 36 => RowBelow(6, 6, k); Get(g, 6, 6, Row(6, k), 5 - Col(6, k)));
    forall i: nat, j: nat | i < 6 && j < 6 ensures Get(r, 6, 6, j, i) == Get(g, 6, 6, i, 5 - j) {
      ColRowOfIdx(6, j, i);
    }
    r
  }

  /** Four quarter turns give the grid back. */
  lemma Rot90Four<T>(g: seq<T>)
    requires |g| == 36
    ensures Rot90(Rot90(Rot90(Rot90(g)))) == g
  {
    var r1 := Rot90(g);
    var r2 := Rot90(r1);
    var r3 := Rot90(r2);
    var r4 := Rot90(r3);
    forall k | 0 <= k < 36 ensures r4[k] == g[k] {
      RowBelow(6, 6, k);
      IdxOfColRow(6, k);
      var j, i := Col(6, k), Row(6, k);
      assert Get(r4, 6, 6, j, i) == Get(r3, 6, 6, i, 5 - j);
      assert Get(r3, 6, 6, i, 5 - j) == Get(r2, 6, 6, 5 - j, 5 - i);
      assert Get(r2, 6, 6, 5 - j, 5 - i) == Get(r1, 6, 6, 5 - i, j);
      assert Get(r1, 6, 6, 5 - i, j) == Get(g, 6, 6, j, i);
    }
  }

  /** The grid turned k quarter turns. */
  function Turned<T>(g: seq<T>, k: nat): (r: seq<T>)
    requires |g| == 36
    ensures |r| == 36
    decreases k
  {
    if k == 0 then g else Turned(Rot90(g), k - 1)
  }

  /** Four quarter turns of Turned give the grid back. */
  lemma TurnedFour<T>(g: seq<T>)
    requires |g| == 36
    ensures Turned(g, 4) == g
  {
    var r1 := Rot90(g);
    var r2 := Rot90(r1);
    var r3 := Rot90(r2);
    assert Turned(g, 4) == Turned(r1, 3) == Turned(r2, 2) == Turned(r3, 1) == Rot90(r3);
    Rot90Four(g);
  }

  /** The codebook search over the grid and the next tries - 1 quarter
      turns of it; the first turn whose pattern is a code wins. */
  function Search(codes: seq<nat>, bits: seq<bool>, tries: nat): (r: Option<nat>)
    requires |bits| == 36
    ensures r.Some? ==> r.value < |codes|
    decreases tries
  {
    if tries == 0 then None
    else
      match Lookup(codes, bits)
      case Some(id) => Some(id)
      case None => Search(codes, Rot90(bits), tries - 1)
  }

  /** The id of a bit grid: the search of the codebook over all four
      orientations. */
  function Identify(bits: seq<bool>): Option<nat>
    requires |bits| == 36
  {
    Search(Codes, bits, 4)
  }

  /** A turn k < tries whose pattern looks up to r, with no code among the
      patterns of the earlier turns. */
  ghost predicate FirstMatch(codes: seq<nat>, bits: seq<bool>, tries: nat, r: nat, k: nat)
    requires |bits| == 36
  {
    && k < tries
    && Lookup(codes, Turned(bits, k)) == Some(r)
    && forall k' | 0 <= k' < k :: Pack(Turned(bits, k')) !in codes
  }

  /** What the search answers is a first match. */
  lemma {:induction false} SearchSound(codes: seq<nat>, bits: seq<bool>, tries: nat, r: nat) returns (k: nat)
    requires |bits| == 36 && Search(codes, bits, tries) == Some(r)
    ensures FirstMatch(codes, bits, tries, r, k)
    decreases tries
  {
    var rb := Rot90(bits);
    if Lookup(codes, bits).None? {
      var j := SearchSound(codes, rb, tries - 1, r);
      forall k' | 0 <= k' < j + 1 ensures Pack(Turned(bits, k')) !in codes {
        if k' > 0 {
          assert Turned(bits, k') == Turned(rb, k' - 1);
        }
      }
      k := j + 1;
    } else {
      k := 0;
    }
  }

  /** A first match is what the search answers. */
  lemma {:induction false} SearchComplete(codes: seq<nat>, bits: seq<bool>, tries: nat, r: nat, k: nat)
    requires |bits| == 36 && FirstMatch(codes, bits, tries, r, k)
    ensures Search(codes, bits, tries) == Some(r)
    decreases k
  {
    if k > 0 {
      var rb := Rot90(bits);
      assert Turned(bits, 0) == bits;
      assert Lookup(codes, bits).None?;
      forall k' | 0 <= k' < k - 1 ensures Pack(Turned(rb, k')) !in codes {
        assert Turned(rb, k') == Turned(bits, k' + 1);
      }
      SearchComplete(codes, rb, tries - 1, r, k - 1);
    }
  }

  /** The search answers r exactly when r is the first match. */
  lemma SearchFinds(codes: seq<nat>, bits: seq<bool>, tries: nat, r: nat)
    requires |bits| == 36
    ensures Search(codes, bits, tries) == Some(r) <==> exists k: nat :: FirstMatch(codes, bits, tries, r, k)
  {
    if Search(codes, bits, tries) == Some(r) {
      var k := SearchSound(codes, bits, tries, r);
    }
    if exists k: nat :: FirstMatch(codes, bits, tries, r, k) {
      var k: nat :| FirstMatch(codes, bits, tries, r, k);
      SearchComplete(codes, bits, tries, r, k);
    }
  }

  /** Some turn k < tries packs to a code. */
  ghost predicate AnyMatch(codes: seq<nat>, bits: seq<bool>, tries: nat, k: nat)
    requires |bits| == 36
  {
    k < tries && Pack(Turned(bits, k)) in codes
  }

  /** The search answers exactly when one of the turns it tries packs to a
      code. */
  lemma SearchSome(codes: seq<nat>, bits: seq<bool>, tries: nat)
    requires |bits| == 36
    ensures Search(codes, bits, tries).Some? <==> exists k: nat :: AnyMatch(codes, bits, tries, k)
  {
    if Search(codes, bits, tries).Some? {
      var k := SearchSound(codes, bits, tries, Search(codes, bits, tries).value);
      assert AnyMatch(codes, bits, tries, k);
    }
    if exists k: nat :: AnyMatch(codes, bits, tries, k) {
      var k: nat :| AnyMatch(codes, bits, tries, k);
      var j := FirstCode(codes, bits, k);
      SearchComplete(codes, bits, tries, IndexOf(codes, Pack(Turned(bits, j))).value, j);
    }
  }

  /** The earliest turn up to k whose pattern is a code. */
  lemma {:induction false} FirstCode(codes: seq<nat>, bits: seq<bool>, k: nat) returns (j: nat)
    requires |bits| == 36 && Pack(Turned(bits, k)) in codes
    ensures j <= k && Pack(Turned(bits, j)) in codes
    ensures forall k' | 0 <= k' < j :: Pack(Turned(bits, k')) !in codes
    decreases k
  {
    if k == 0 || forall k' | 0 <= k' < k :: Pack(Turned(bits, k')) !in codes {
      j := k;
    } else {
      var k' :| 0 <= k' < k && Pack(Turned(bits, k')) in codes;
      j := FirstCode(codes, bits, k');
    }
  }

  /** Turn k < tries packs to the code at r, and no earlier turn packs to
      any code. */
  ghost predicate CodeMatch(codes: seq<nat>, bits: seq<bool>, tries: nat, r: nat, k: nat)
    requires |bits| == 36
  {
    && k < tries && r < |codes| && Pack(Turned(bits, k)) == codes[r]
    && forall k' | 0 <= k' < k :: Pack(Turned(bits, k')) !in codes
  }

  /** With a codebook without repeats, the search answers r exactly when
      some turn packs to the code at r and no earlier turn packs to any
      code. */
  lemma SearchFindsCode(codes: seq<nat>, bits: seq<bool>, tries: nat, r: nat)
    requires |bits| == 36 && Unique(codes)
    ensures Search(codes, bits, tries) == Some(r) <==> exists k: nat :: CodeMatch(codes, bits, tries, r, k)
  {
    if Search(codes, bits, tries) == Some(r) {
      var k := SearchSound(codes, bits, tries, r);
      assert CodeMatch(codes, bits, tries, r, k);
    }
    if exists k: nat :: CodeMatch(codes, bits, tries, r, k) {
      var k: nat :| CodeMatch(codes, bits, tries, r, k);
      IndexOfUnique(codes, Pack(Turned(bits, k)), r);
      SearchComplete(codes, bits, tries, r, k);
    }
  }

  /** A grid is identified as tag id exactly when, for some turn k < 4, the
      k-times turned grid packs to the code of id and no earlier turn packs
      to any code.  Matching is exact: no bit errors are tolerated. */
  lemma IdentifyFinds(bits: seq<bool>, id: nat)
    requires |bits| == 36
    ensures Identify(bits) == Some(id) <==> exists k: nat :: CodeMatch(Codes, bits, 4, id, k)
  {
    CodesDistinct();
    SearchFindsCode(Codes, bits, 4, id);
  }

  /** Searching all four turns does not depend on the orientation of the
      grid: the search answers exactly when it answers for the grid's
      quarter turn. */
  lemma SearchRotation(codes: seq<nat>, bits: seq<bool>)
    requires |bits| == 36
    ensures Search(codes, bits, 4).Some? <==> Search(codes, Rot90(bits), 4).Some?
  {
    var r := Rot90(bits);
    SearchSome(codes, bits, 4);
    SearchSome(codes, r, 4);
    TurnedFour(bits);
    assert Turned(bits, 0) == bits;
    if Search(codes, bits, 4).Some? {
      var k: nat :| AnyMatch(codes, bits, 4, k);
      if k == 0 {
        assert AnyMatch(codes, r, 4, 3);
      } else {
        assert AnyMatch(codes, r, 4, k - 1);
      }
    }
    if Search(codes, r, 4).Some? {
      var k: nat :| AnyMatch(codes, r, 4, k);
      if k == 3 {
        assert AnyMatch(codes, bits, 4, 0);
      } else {
        assert AnyMatch(codes, bits, 4, k + 1);
      }
    }
  }

  /** Identification does not depend on the orientation of the grid: a grid
      is identified exactly when its quarter turn is. */
  lemma RotationInvariant(bits: seq<bool>)
    requires |bits| == 36
    ensures Identify(bits).Some? <==> Identify(Rot90(bits)).Some?
  {
    SearchRotation(Codes, bits);
  }

  /** The decoding loop: up to four times, pack the grid, look the pattern
      up in the code table, and turn the grid a quarter if it is not a code. */
  method IdentifyLoop(codes: seq<nat>, grid: seq<bool>) returns (id: Option<nat>)
    requires |grid| == 36
    ensures id == Search(codes, grid, 4)
  {
    var bits := grid;
    var k := 0;
    while k < 4
      invariant 0 <= k <= 4 && |bits| == 36
      invariant Search(codes, grid, 4) == Search(codes, bits, 4 - k)
    {
      var bin := Pack(bits);
      var found := IndexOf(codes, bin);
      if found.Some? {
        return found;
      }
      bits := Rot90(bits);
      k := k + 1;
    }
    return None;
  }

  /** A sample is a set bit when it lies above the threshold fraction of
      the way from the darkest value lo to the brightest hi.  Where hi == lo
      the source divides zero by zero; NaN compares false, so no bit is
      set. */
  predicate Bright(v: real, lo: real, hi: real)
  {
    hi != lo && (v - lo) / (hi - lo) > BitThresh
  }

  lemma BrightMono(a: real, b: real, lo: real, hi: real)
    requires lo <= hi && a <= b && Bright(a, lo, hi)
    ensures Bright(b, lo, hi)
  {
    var d := hi - lo;
    assert (b - lo) / d - (a - lo) / d == (b - a) / d;
  }

  /** The grid of bits of a sample, cell by cell. */
  function Binarise(tag: seq<real>): (bits: seq<bool>)
    requires |tag| > 0
    ensures |bits| == |tag|
    ensures Least(tag) == Peak(tag) ==> forall i | 0 <= i < |bits| :: !bits[i]
    ensures forall i | 0 <= i < |bits| :: bits[i] ==> tag[i] > Least(tag)
    ensures forall i, j | 0 <= i < |bits| && 0 <= j < |bits| :: bits[i] && tag[i] <= tag[j] ==> bits[j]
  {
    var lo := Least(tag);
    var hi := Peak(tag);
    var bits := seq(|tag|, i requires 0 <= i < |tag| => Bright(tag[i], lo, hi));
    assert tag[0] in tag;
    forall i, j | 0 <= i < |bits| && 0 <= j < |bits| && bits[i] && tag[i] <= tag[j] ensures bits[j] {
      BrightMono(tag[i], tag[j], lo, hi);
    }
    bits
  }

  /** A grid with no set bit packs to 0. */
  lemma {:induction false} PackBlank(bits: seq<bool>)
    requires forall i | 0 <= i < |bits| :: !bits[i]
    ensures Pack(bits) == 0
    decreases |bits|
  {
    if |bits| > 0 {
      PackBlank(bits[..|bits| - 1]);
    }
  }

  /** With 0 not a code, no turn of a grid with no set bit is a code, so
      the search finds nothing. */
  lemma {:induction false} SearchBlank(codes: seq<nat>, bits: seq<bool>, tries: nat)
    requires |bits| == 36 && 0 !in codes
    requires forall i | 0 <= i < 36 :: !bits[i]
    ensures Search(codes, bits, tries) == None
    decreases tries
  {
    if tries > 0 {
      PackBlank(bits);
      var r := Rot90(bits);
      forall k | 0 <= k < 36
        ensures !r[k]
      {
        RowBelow(6, 6, k);
        var j, i := Col(6, k), Row(6, k);
        ColRowOfIdx(6, j, i);
        assert r[k] == Get(r, 6, 6, j, i) == Get(bits, 6, 6, i, 5 - j);
      }
      SearchBlank(codes, r, tries - 1);
    }
  }

  /** A flat sample, every cell equally bright, binarises to no set bit
      and so is identified as no tag in any orientation. */
  lemma FlatSampleNoTag(tag: seq<real>)
    requires |tag| == 36
    requires forall i | 0 <= i < 36 :: tag[i] == tag[0]
    ensures Identify(Binarise(tag)) == None
  {
    var lo, hi := Least(tag), Peak(tag);
    assert lo == tag[0] && hi == tag[0];
    SearchBlank(Codes, Binarise(tag), 4);
  }

  /** A homography, row-major as its 3x3 matrix. */
  datatype Homography = Homography(
    m0: real, m1: real, m2: real,
    m3: real, m4: real, m5: real,
    m6: real, m7: real, m8: real)

  /** A corner point with real coordinates. */
  type FPoint = (real, real)

  /** The projective map of the unit square with perspective terms g and h
      that sends (0, 0) to p0, (1, 0) to p1 and (0, 1) to p2. */
  function Perspective(p0: FPoint, p1: FPoint, p2: FPoint, g: real, h: real): (hm: Homography)
    ensures hm.m6 == g && hm.m7 == h && hm.m8 == 1.0
  {
    Homography(
      p1.0 - p0.0 + g * p1.0, p2.0 - p0.0 + h * p2.0, p0.0,
      p1.1 - p0.1 + g * p1.1, p2.1 - p0.1 + h * p2.1, p0.1,
      g, h, 1.0)
  }

  /** The determinant of the edge vectors at the fourth corner. */
  function Denominator(p1: FPoint, p2: FPoint, p3: FPoint): real
  {
    (p1.0 - p3.0) * (p2.1 - p3.1) - (p2.0 - p3.0) * (p1.1 - p3.1)
  }

  /** The perspective terms (g, h) that send (1, 1) to p3: the solution,
      by Cramer's rule, of g * (p1 - p3) + h * (p2 - p3) = p0 - p1 + p3 - p2
      in both coordinates. */
  function Terms(p0: FPoint, p1: FPoint, p2: FPoint, p3: FPoint): (gh: (real, real))
    requires Denominator(p1, p2, p3) != 0.0
  {
    var dx1 := p1.0 - p3.0;
    var dx2 := p2.0 - p3.0;
    var dx3 := p0.0 - p1.0 + p3.0 - p2.0;
    var dy1 := p1.1 - p3.1;
    var dy2 := p2.1 - p3.1;
    var dy3 := p0.1 - p1.1 + p3.1 - p2.1;
    var denom := dx1 * dy2 - dx2 * dy1;
    ((dx3 * dy2 - dx2 * dy3) / denom, (dx1 * dy3 - dx3 * dy1) / denom)
  }

  /** The terms solve both equations. */
  lemma TermsSolve(p0: FPoint, p1: FPoint, p2: FPoint, p3: FPoint)
    requires Denominator(p1, p2, p3) != 0.0
    ensures var (g, h) := Terms(p0, p1, p2, p3);
      && g * (p1.0 - p3.0) + h * (p2.0 - p3.0) == p0.0 - p1.0 + p3.0 - p2.0
      && g * (p1.1 - p3.1) + h * (p2.1 - p3.1) == p0.1 - p1.1 + p3.1 - p2.1
  {
    var dx1 := p1.0 - p3.0;
    var dx2 := p2.0 - p3.0;
    var dx3 := p0.0 - p1.0 + p3.0 - p2.0;
    var dy1 := p1.1 - p3.1;
    var dy2 := p2.1 - p3.1;
    var dy3 := p0.1 - p1.1 + p3.1 - p2.1;
    var d := dx1 * dy2 - dx2 * dy1;
    var a := dx3 * dy2 - dx2 * dy3;
    var b := dx1 * dy3 - dx3 * dy1;
    assert a * dx1 + b * dx2 == dx3 * d;
    assert a * dy1 + b * dy2 == dy3 * d;
    Solve(a, b, d, dx1, dx2, dx3);
    Solve(a, b, d, dy1, dy2, dy3);
  }

  lemma Solve(a: real, b: real, d: real, e1: real, e2: real, e3: real)
    requires d != 0.0 && a * e1 + b * e2 == e3 * d
    ensures (a / d) * e1 + (b / d) * e2 == e3
  {
    assert (a / d) * e1 + (b / d) * e2 == (a * e1 + b * e2) / d;
  }

  /** The map of the unit square onto the quad with corners p0 (u = 0,
      v = 0), p1 (u = 1), p2 (v = 1) and p3 (u = v = 1).  The source
      divides by the determinant of the edge vectors at p3; where that is
      zero the f32 code produces non-finite entries, and the model has no
      homography. */
  function FromCorners(p0: FPoint, p1: FPoint, p2: FPoint, p3: FPoint): (r: Option<Homography>)
    ensures r.None? <==> Denominator(p1, p2, p3) == 0.0
    ensures r.Some? ==> exists g, h :: r.value == Perspective(p0, p1, p2, g, h)
  {
    if Denominator(p1, p2, p3) == 0.0 then None
    else
      var (g, h) := Terms(p0, p1, p2, p3);
      Some(Perspective(p0, p1, p2, g, h))
  }

  /** The homogeneous image (x, y, w) of (u, v, 1) under the matrix. */
  function Apply(hm: Homography, u: real, v: real): (real, real, real)
  {
    (hm.m0 * u + hm.m1 * v + hm.m2, hm.m3 * u + hm.m4 * v + hm.m5, hm.m6 * u + hm.m7 * v + hm.m8)
  }

  /** The image of (u, v): the homogeneous image divided by its weight;
      none where the weight is zero. */
  function Map(hm: Homography, u: real, v: real): (r: Option<FPoint>)
    ensures r.None? <==> Apply(hm, u, v).2 == 0.0
  {
    var (x, y, w) := Apply(hm, u, v);
    if w == 0.0 then None else Some((x / w, y / w))
  }

  /** Where the weight at (u, v) is w != 0 and both numerators are w times
      the coordinates of q, (u, v) maps to q. */
  lemma MapOnto(hm: Homography, u: real, v: real, q: FPoint, w: real)
    requires w != 0.0 && Apply(hm, u, v) == (w * q.0, w * q.1, w)
    ensures Map(hm, u, v) == Some(q)
  {
    assert w * q.0 / w == q.0 by { Cancel(w, q.0); }
    assert w * q.1 / w == q.1 by { Cancel(w, q.1); }
  }

  lemma Cancel(a: real, b: real)
    requires a != 0.0
    ensures (a * b) / a == b
  {
  }

  /** The origin of the unit square maps to the first corner. */
  lemma MapOrigin(p0: FPoint, p1: FPoint, p2: FPoint, g: real, h: real)
    ensures Map(Perspective(p0, p1, p2, g, h), 0.0, 0.0) == Some(p0)
  {
    var hm := Perspective(p0, p1, p2, g, h);
    var a := Apply(hm, 0.0, 0.0);
    assert a.0 == hm.m2 == p0.0 && a.1 == hm.m5 == p0.1 && a.2 == 1.0;
    assert a.0 / a.2 == p0.0;
    assert a.1 / a.2 == p0.1;
    assert (a.0 / a.2, a.1 / a.2) == p0;
  }

  /** (1, 0) maps to the second corner, unless the weight there vanishes. */
  lemma MapUnitU(p0: FPoint, p1: FPoint, p2: FPoint, g: real, h: real)
    requires 1.0 + g != 0.0
    ensures Map(Perspective(p0, p1, p2, g, h), 1.0, 0.0) == Some(p1)
  {
    var hm := Perspective(p0, p1, p2, g, h);
    var w := 1.0 + g;
    assert hm.m0 * 1.0 + hm.m1 * 0.0 + hm.m2 == w * p1.0;
    assert hm.m3 * 1.0 + hm.m4 * 0.0 + hm.m5 == w * p1.1;
    assert Apply(hm, 1.0, 0.0) == (w * p1.0, w * p1.1, w);
    MapOnto(hm, 1.0, 0.0, p1, w);
  }

  /** (0, 1) maps to the third corner, unless the weight there vanishes. */
  lemma MapUnitV(p0: FPoint, p1: FPoint, p2: FPoint, g: real, h: real)
    requires 1.0 + h != 0.0
    ensures Map(Perspective(p0, p1, p2, g, h), 0.0, 1.0) == Some(p2)
  {
    var hm := Perspective(p0, p1, p2, g, h);
    var w := 1.0 + h;
    assert hm.m0 * 0.0 + hm.m1 * 1.0 + hm.m2 == w * p2.0;
    assert hm.m3 * 0.0 + hm.m4 * 1.0 + hm.m5 == w * p2.1;
    assert Apply(hm, 0.0, 1.0) == (w * p2.0, w * p2.1, w);
    MapOnto(hm, 0.0, 1.0, p2, w);
  }

  /** With perspective terms that solve the equations for p3, (1, 1) maps
      to p3, unless the weight there vanishes. */
  lemma PerspectiveFar(p0: FPoint, p1: FPoint, p2: FPoint, p3: FPoint, g: real, h: real)
    requires g * (p1.0 - p3.0) + h * (p2.0 - p3.0) == p0.0 - p1.0 + p3.0 - p2.0
    requires g * (p1.1 - p3.1) + h * (p2.1 - p3.1) == p0.1 - p1.1 + p3.1 - p2.1
    requires 1.0 + g + h != 0.0
    ensures Map(Perspective(p0, p1, p2, g, h), 1.0, 1.0) == Some(p3)
  {
    var hm := Perspective(p0, p1, p2, g, h);
    var w := 1.0 + g + h;
    assert hm.m0 * 1.0 + hm.m1 * 1.0 + hm.m2 == w * p3.0;
    assert hm.m3 * 1.0 + hm.m4 * 1.0 + hm.m5 == w * p3.1;
    assert Apply(hm, 1.0, 1.0) == (w * p3.0, w * p3.1, w);
    MapOnto(hm, 1.0, 1.0, p3, w);
  }

  /** The homography of four corners maps (1, 1) to the fourth corner,
      unless the weight there vanishes. */
  lemma MapFar(p0: FPoint, p1: FPoint, p2: FPoint, p3: FPoint, g: real, h: real)
    requires Denominator(p1, p2, p3) != 0.0 && Terms(p0, p1, p2, p3) == (g, h)
    requires 1.0 + g + h != 0.0
    ensures FromCorners(p0, p1, p2, p3) == Some(Perspective(p0, p1, p2, g, h))
    ensures Map(Perspective(p0, p1, p2, g, h), 1.0, 1.0) == Some(p3)
  {
    TermsSolve(p0, p1, p2, p3);
    PerspectiveFar(p0, p1, p2, p3, g, h);
  }

  /** The point (u, v) = ((x + 1.5) / 8, (y + 1.5) / 8) of the unit square
      at which cell (x, y) of the 6x6 grid is sampled; the grid sits inside
      a one-cell border of an 8x8 layout. */
  function SamplePoint(x: nat, y: nat): (uv: FPoint)
    ensures x < 6 && y < 6 ==> 0.0 < uv.0 < 1.0 && 0.0 < uv.1 < 1.0
  {
    ((x as real + 1.5) / 8.0, (y as real + 1.5) / 8.0)
  }

  /** The pixel read for cell (x, y): the mapped point, floored; none where
      the map has no image. */
  function PixelOf(hm: Homography, floor: real -> int, x: nat, y: nat): Option<(int, int)>
  {
    var uv := SamplePoint(x, y);
    match Map(hm, uv.0, uv.1)
    case None => None
    case Some(p) => Some((floor(p.0), floor(p.1)))
  }

  /** The pixel exists and lies in a w x h image. */
  predicate InImage(p: Option<(int, int)>, w: nat, h: nat)
  {
    p.Some? && 0 <= p.value.0 < w && 0 <= p.value.1 < h
  }

  /** The sampled value of cell (x, y), where the pixel lies in the image. */
  function SampleAt(img: seq<real>, w: nat, h: nat, hm: Homography, floor: real -> int, x: nat, y: nat): real
    requires |img| == w * h && InImage(PixelOf(hm, floor, x, y), w, h)
  {
    var p := PixelOf(hm, floor, x, y).value;
    Get(img, w, h, p.0, p.1)
  }

  /** Every cell of the grid reads a pixel of the image. */
  predicate Covered(w: nat, h: nat, hm: Homography, floor: real -> int)
  {
    forall x: nat, y: nat | x < 6 && y < 6 :: InImage(PixelOf(hm, floor, x, y), w, h)
  }

  /** The homography of a quad's corners, in the order top-left, top-right,
      bottom-left, bottom-right. */
  function QuadHomography(c: Corners): Option<Homography>
  {
    FromCorners(
      (c.tl.x as real, c.tl.y as real), (c.tr.x as real, c.tr.y as real),
      (c.bl.x as real, c.bl.y as real), (c.br.x as real, c.br.y as real))
  }

  /** The 6x6 sample of a quad: cell (x, y), at x + 6y, reads the pixel its
      sample point maps to.  There is no sample when the corners give no
      homography or when any of the 36 points falls outside the image. */
  method Sample(img: seq<real>, w: nat, h: nat, c: Corners, floor: real -> int) returns (tag: Option<seq<real>>)
    requires |img| == w * h
    ensures tag.None? <==> QuadHomography(c).None? || !Covered(w, h, QuadHomography(c).value, floor)
    ensures tag.Some? ==>
      && |tag.value| == 36
      && forall x: nat, y: nat | x < 6 && y < 6 ::
           Get(tag.value, 6, 6, x, y) == SampleAt(img, w, h, QuadHomography(c).value, floor, x, y)
  {
    var hmo := QuadHomography(c);
    if hmo.None? {
      return None;
    }
    var hm := hmo.value;
    var out: seq<real> := seq(36, _ => 0.0);
    for y := 0 to 6
      invariant |out| == 36
      invariant forall x': nat, y': nat | x' < 6 && y' < y :: InImage(PixelOf(hm, floor, x', y'), w, h)
      invariant forall x': nat, y': nat | x' < 6 && y' < y ::
        Get(out, 6, 6, x', y') == SampleAt(img, w, h, hm, floor, x', y')
    {
      for x := 0 to 6
        invariant |out| == 36
        invariant forall x': nat, y': nat | x' < 6 && y' < y :: InImage(PixelOf(hm, floor, x', y'), w, h)
        invariant forall x': nat | x' < x :: InImage(PixelOf(hm, floor, x', y), w, h)
        invariant forall x': nat, y': nat | x' < 6 && y' < y ::
          Get(out, 6, 6, x', y') == SampleAt(img, w, h, hm, floor, x', y')
        invariant forall x': nat | x' < x :: Get(out, 6, 6, x', y) == SampleAt(img, w, h, hm, floor, x', y)
      {
        var u := (x as real + 1.5) / 8.0;
        var v := (y as real + 1.5) / 8.0;
        var m := Map(hm, u, v);
        if m.None? {
          assert PixelOf(hm, floor, x, y).None?;
          return None;
        }
        var px := floor(m.value.0);
        var py := floor(m.value.1);
        assert PixelOf(hm, floor, x, y) == Some((px, py));
        if px < 0 || px >= w || py < 0 || py >= h {
          return None;
        }
        out := Set(out, 6, 6, x, y, Get(img, w, h, px, py));
      }
    }
    return Some(out);
  }

  /** Decoding one quad: sample it, binarise the sample and identify the
      bit grid in any of its four orientations. */
  method DecodeQuad(img: seq<real>, w: nat, h: nat, c: Corners, floor: real -> int) returns (id: Option<nat>)
    requires |img| == w * h
    ensures id.Some? ==> id.value < |Codes|
    ensures id.Some? ==> QuadHomography(c).Some? && Covered(w, h, QuadHomography(c).value, floor)
    ensures QuadHomography(c).Some? && Covered(w, h, QuadHomography(c).value, floor) ==>
      exists tag | |tag| == 36 ::
        && (forall x: nat, y: nat | x < 6 && y < 6 ::
              Get(tag, 6, 6, x, y) == SampleAt(img, w, h, QuadHomography(c).value, floor, x, y))
        && id == Identify(Binarise(tag))
  {
    var tag := Sample(img, w, h, c, floor);
    if tag.None? {
      return None;
    }
    var bits := Binarise(tag.value);
    id := IdentifyLoop(Codes, bits);
  }
}
