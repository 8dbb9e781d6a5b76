/** The label union-find of the shape extractor: an arena of parent
    pointers with path compression in find and union by size in unite.  The
    source calls the size vector `height`, but unite adds the two sizes, so
    at a root it is the number of elements of that root's set.

    The model keeps two ghost views beside the real vectors: `root`, the
    partition (the representative of every element), and `depth`, the
    number of parent steps from an element to its root, which is what makes
    the recursion in find terminate. */
module Uf {

  /** The elements of the set whose representative is r. */
  ghost function Members(root: seq<nat>, r: nat): set<nat>
  {
    set i | 0 <= i < |root| && root[i] == r
  }

  /** Lengths agree and every pointer stays inside the arena. */
  ghost predicate Shape(parent: seq<nat>, height: seq<nat>, root: seq<nat>, depth: seq<nat>)
  {
    && |parent| > 0
    && |height| == |parent| && |root| == |parent| && |depth| == |parent|
    && (forall i | 0 <= i < |parent| :: parent[i] < |parent| && root[i] < |parent|)
  }

  /** Representatives are self-parented and are their own representative,
      and an element and its parent are in the same set. */
  ghost predicate RootsOk(parent: seq<nat>, root: seq<nat>)
    requires |root| == |parent|
    requires forall i | 0 <= i < |parent| :: parent[i] < |parent| && root[i] < |parent|
  {
    && (forall i {:trigger parent[root[i]]} | 0 <= i < |parent| :: parent[root[i]] == root[i])
    && (forall i | 0 <= i < |parent| :: parent[i] == i ==> root[i] == i)
    && (forall i {:trigger root[parent[i]]} | 0 <= i < |parent| :: root[parent[i]] == root[i])
  }

  /** The depth falls along every parent step and is zero exactly at roots. */
  ghost predicate DepthOk(parent: seq<nat>, depth: seq<nat>)
    requires |depth| == |parent|
    requires forall i | 0 <= i < |parent| :: parent[i] < |parent|
  {
    && (forall i | 0 <= i < |parent| :: (depth[i] == 0) == (parent[i] == i))
    && (forall i {:trigger depth[parent[i]]} | 0 <= i < |parent| && parent[i] != i :: depth[parent[i]] < depth[i])
  }

  /** The size recorded at a root is the size of its set. */
  ghost predicate SizesOk(parent: seq<nat>, height: seq<nat>, root: seq<nat>)
    requires |height| == |parent|
  {
    forall r | 0 <= r < |parent| && parent[r] == r :: height[r] == |Members(root, r)|
  }

  /** The arena invariant over plain values. */
  ghost predicate Wf(parent: seq<nat>, height: seq<nat>, root: seq<nat>, depth: seq<nat>)
  {
    && Shape(parent, height, root, depth)
    && RootsOk(parent, root)
    && DepthOk(parent, depth)
    && SizesOk(parent, height, root)
  }

  /** r2 is the partition r1 with some sets merged: elements together in r1
      stay together in r2. */
  ghost predicate Coarser(r1: seq<nat>, r2: seq<nat>)
  {
    |r1| == |r2| &&
    forall i, j | 0 <= i < |r1| && 0 <= j < |r1| && r1[i] == r1[j] :: r2[i] == r2[j]
  }

  lemma CoarserRefl(r: seq<nat>)
    ensures Coarser(r, r)
  {
  }

  lemma CoarserTrans(r1: seq<nat>, r2: seq<nat>, r3: seq<nat>)
    requires Coarser(r1, r2) && Coarser(r2, r3)
    ensures Coarser(r1, r3)
  {
  }

  /** Hanging the root `lo` under the root `hi` keeps the arena well formed,
      with the two sets merged under `hi` and its size the sum. */
  lemma LinkKeepsWf(parent: seq<nat>, height: seq<nat>, root: seq<nat>, depth: seq<nat>, lo: nat, hi: nat)
    requires Wf(parent, height, root, depth)
    requires lo < |parent| && hi < |parent| && lo != hi
    requires parent[lo] == lo && parent[hi] == hi
    ensures Wf(parent[lo := hi], height[hi := height[hi] + height[lo]], Relabel(root, lo, hi), Deepen(root, depth, lo))
  {
    LinkRoots(parent, height, root, depth, lo, hi);
    LinkDepths(parent, height, root, depth, lo, hi);
    LinkSizes(parent, height, root, depth, lo, hi);
  }

  lemma LinkRoots(parent: seq<nat>, height: seq<nat>, root: seq<nat>, depth: seq<nat>, lo: nat, hi: nat)
    requires Wf(parent, height, root, depth)
    requires lo < |parent| && hi < |parent| && lo != hi
    requires parent[lo] == lo && parent[hi] == hi
    ensures Shape(parent[lo := hi], height[hi := height[hi] + height[lo]], Relabel(root, lo, hi), Deepen(root, depth, lo))
    ensures RootsOk(parent[lo := hi], Relabel(root, lo, hi))
  {
    var root' := Relabel(root, lo, hi);
    var parent' := parent[lo := hi];
    assert root[lo] == lo && root[hi] == hi;
    forall i | 0 <= i < |parent'|
      ensures parent'[root'[i]] == root'[i] && (parent'[i] == i ==> root'[i] == i)
      ensures root'[parent'[i]] == root'[i]
    {
      assert root[parent[i]] == root[i];
    }
  }

  lemma LinkDepths(parent: seq<nat>, height: seq<nat>, root: seq<nat>, depth: seq<nat>, lo: nat, hi: nat)
    requires Wf(parent, height, root, depth)
    requires lo < |parent| && hi < |parent| && lo != hi
    requires parent[lo] == lo && parent[hi] == hi
    ensures DepthOk(parent[lo := hi], Deepen(root, depth, lo))
  {
    var depth' := Deepen(root, depth, lo);
    var parent' := parent[lo := hi];
    assert root[lo] == lo && root[hi] == hi;
    forall i | 0 <= i < |parent'|
      ensures (depth'[i] == 0) == (parent'[i] == i)
      ensures parent'[i] != i ==> depth'[parent'[i]] < depth'[i]
    {
      assert root[parent[i]] == root[i];
    }
  }

  lemma LinkSizes(parent: seq<nat>, height: seq<nat>, root: seq<nat>, depth: seq<nat>, lo: nat, hi: nat)
    requires Wf(parent, height, root, depth)
    requires lo < |parent| && hi < |parent| && lo != hi
    requires parent[lo] == lo && parent[hi] == hi
    ensures SizesOk(parent[lo := hi], height[hi := height[hi] + height[lo]], Relabel(root, lo, hi))
  {
    var root' := Relabel(root, lo, hi);
    var parent' := parent[lo := hi];
    var height' := height[hi := height[hi] + height[lo]];
    forall r | 0 <= r < |parent'| && parent'[r] == r
      ensures height'[r] == |Members(root', r)|
    {
      if r == hi {
        assert Members(root', hi) == Members(root, hi) + Members(root, lo);
        assert Members(root, hi) * Members(root, lo) == {};
      } else {
        assert Members(root', r) == Members(root, r);
      }
    }
  }

  /** The partition after the set of `lo` joins the set of `hi`. */
  ghost function Relabel(root: seq<nat>, lo: nat, hi: nat): (r: seq<nat>)
    ensures |r| == |root|
  {
    seq(|root|, i requires 0 <= i < |root| => if root[i] == lo then hi else root[i])
  }

  /** Relabelling merges the set of lo into that of hi and touches no other set. */
  lemma RelabelMerges(root: seq<nat>, lo: nat, hi: nat)
    requires lo < |root| && hi < |root| && root[lo] == lo && root[hi] == hi
    ensures Coarser(root, Relabel(root, lo, hi))
    ensures forall i | 0 <= i < |root| ::
      Relabel(root, lo, hi)[i] == (if root[i] == lo || root[i] == hi then hi else root[i])
  {
  }

  /** The depths after the tree of `lo` is hung one level below another root. */
  ghost function Deepen(root: seq<nat>, depth: seq<nat>, lo: nat): (d: seq<nat>)
    requires |depth| == |root|
    ensures |d| == |depth|
  {
    seq(|depth|, i requires 0 <= i < |depth| => if root[i] == lo then depth[i] + 1 else depth[i])
  }

  /** Pointing the non-root x straight at its representative keeps the arena
      well formed. */
  lemma CompressKeepsWf(parent: seq<nat>, height: seq<nat>, root: seq<nat>, depth: seq<nat>, x: nat)
    requires Wf(parent, height, root, depth)
    requires x < |parent| && parent[x] != x
    ensures Wf(parent[x := root[x]], height, root, depth[x := 1])
  {
    var parent' := parent[x := root[x]];
    var depth' := depth[x := 1];
    assert root[root[x]] == root[x] by {
      assert root[parent[root[x]]] == root[root[x]];
    }
    assert RootsOk(parent', root);
    assert DepthOk(parent', depth') by {
      forall i | 0 <= i < |parent'| && parent'[i] != i
        ensures depth'[parent'[i]] < depth'[i]
      {
        if i != x && parent[i] == x {
          assert depth[x] < depth[i];
        }
      }
    }
    assert SizesOk(parent', height, root);
  }

  /** Appending the element n as its own singleton set keeps the arena well
      formed. */
  lemma PushKeepsWf(parent: seq<nat>, height: seq<nat>, root: seq<nat>, depth: seq<nat>)
    requires Wf(parent, height, root, depth)
    ensures var n := |parent|; Wf(parent + [n], height + [1], root + [n], depth + [0])
  {
    var n := |parent|;
    var parent', height', root', depth' := parent + [n], height + [1], root + [n], depth + [0];
    assert Shape(parent', height', root', depth');
    assert RootsOk(parent', root');
    assert DepthOk(parent', depth');
    assert SizesOk(parent', height', root') by {
      forall r | 0 <= r < n + 1 && parent'[r] == r
        ensures height'[r] == |Members(root', r)|
      {
        if r == n {
          assert Members(root', n) == {n};
        } else {
          assert Members(root', r) == Members(root, r);
        }
      }
    }
  }

  /** A representative map: every element's representative is an element
      that represents itself. */
  ghost predicate Canonical(root: seq<nat>)
  {
    forall i | 0 <= i < |root| :: root[i] < |root| && root[root[i]] == root[i]
  }

  /** r1 is r0 with exactly the sets of x and y merged, under the
      representative of one of them. */
  ghost predicate UnitedBy(r0: seq<nat>, r1: seq<nat>, x: nat, y: nat)
  {
    && |r1| == |r0| && x < |r0| && y < |r0|
    && (r1[x] == r0[x] || r1[x] == r0[y])
    && forall i | 0 <= i < |r0| :: r1[i] == (if r0[i] == r0[x] || r0[i] == r0[y] then r1[x] else r0[i])
  }

  /** The ghost partition of a well-formed arena is canonical. */
  lemma WfCanonical(parent: seq<nat>, height: seq<nat>, root: seq<nat>, depth: seq<nat>)
    requires Wf(parent, height, root, depth)
    ensures Canonical(root)
  {
    forall i | 0 <= i < |root| ensures root[root[i]] == root[i] {
      assert parent[root[i]] == root[i];
    }
  }

  class UnionFind {
    var parent: seq<nat>
    var height: seq<nat>
    ghost var root: seq<nat>
    ghost var depth: seq<nat>

    ghost predicate Valid()
      reads this
    {
      Wf(parent, height, root, depth)
    }

    /** The number of elements. */
    function Size(): nat
      reads this
    {
      |parent|
    }

    /** A fresh structure holds the single element 0, its own root, of size 1. */
    constructor ()
      ensures Valid()
      ensures parent == [0] && height == [1] && root == [0]
    {
      parent := [0];
      height := [1];
      root := [0];
      depth := [0];
      assert Members([0], 0) == {0};
    }

    /** Appends the element n, which must be the next free index, as a
        singleton set; every existing element keeps its representative. */
    method Push(n: nat)
      requires Valid() && n == |parent|
      modifies this
      ensures Valid()
      ensures parent == old(parent) + [n] && height == old(height) + [1]
      ensures root == old(root) + [n]
    {
      PushKeepsWf(parent, height, root, depth);
      parent := parent + [n];
      height := height + [1];
      root := root + [n];
      depth := depth + [0];
    }

    /** Returns the representative of x and points x straight at it.  The
        partition and the sizes are unchanged; a parent pointer that changes
        now points at its element's representative. */
    method Find(x: nat) returns (r: nat)
      requires Valid() && x < |parent|
      modifies this
      ensures Valid() && |parent| == old(|parent|)
      ensures r == root[x] && parent[r] == r && parent[x] == r
      ensures root == old(root) && height == old(height)
      ensures forall i | 0 <= i < |parent| :: parent[i] == old(parent[i]) || parent[i] == root[i]
      decreases depth[x]
    {
      var p := parent[x];
      if p != x {
        var q := Find(p);
        CompressKeepsWf(parent, height, root, depth, x);
        parent := parent[x := q];
        depth := depth[x := 1];
      }
      r := parent[x];
    }

    /** Hangs the root lo under the root hi and gives hi the summed size. */
    method Link(lo: nat, hi: nat)
      requires Valid() && lo < |parent| && hi < |parent| && lo != hi
      requires parent[lo] == lo && parent[hi] == hi
      modifies this
      ensures Valid() && |parent| == old(|parent|)
      ensures root == Relabel(old(root), lo, hi)
      ensures height == old(height)[hi := old(height[hi]) + old(height[lo])]
    {
      LinkKeepsWf(parent, height, root, depth, lo, hi);
      parent := parent[lo := hi];
      height := height[hi := height[hi] + height[lo]];
      root, depth := Relabel(root, lo, hi), Deepen(root, depth, lo);
    }

    /** Merges the sets of x and y.  When they already share a representative
        nothing changes; otherwise the representative of the smaller set is
        hung under that of the larger (y's under x's on a tie) and the
        surviving representative's size becomes the sum. */
    method Unite(x: nat, y: nat)
      requires Valid() && x < |parent| && y < |parent|
      modifies this
      ensures Valid() && |parent| == old(|parent|)
      ensures root[x] == root[y]
      ensures Coarser(old(root), root)
      ensures UnitedBy(old(root), root, x, y)
      ensures old(root[x]) == old(root[y]) ==> root == old(root) && height == old(height)
      ensures old(root[x]) != old(root[y]) ==>
        var xr, yr := old(root[x]), old(root[y]);
        var s := if old(height[yr]) > old(height[xr]) then yr else xr;
        && height[s] == old(height[xr]) + old(height[yr])
        && forall i | 0 <= i < |root| ::
             root[i] == (if old(root[i]) == xr || old(root[i]) == yr then s else old(root[i]))
    {
      var xr := Find(x);
      var yr := Find(y);
      if xr == yr {
        CoarserRefl(root);
        return;
      }
      ghost var r0 := root;
      RelabelMerges(r0, xr, yr);
      RelabelMerges(r0, yr, xr);
      if height[yr] > height[xr] {
        Link(xr, yr);
      } else {
        Link(yr, xr);
      }
    }
  }
}
