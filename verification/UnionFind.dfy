/**
 * The disjoint-set forest local to `count_independent` (src/core/investigation.py:202-215):
 * a parent array, `find` with path halving, and `union` that hangs one root under another
 * with no balancing.
 */
module UnionFindForest {

  /** The representative of every element after the class of `x` joins the class of `y`. */
  ghost function Merged(root: seq<nat>, x: nat, y: nat): (merged: seq<nat>)
    requires x < |root| && y < |root|
  {
    seq(|root|, i requires 0 <= i < |root| => if root[i] == root[x] then root[y] else root[i])
  }

  /** One element of the forest: its representative ends its chain of links and is shared
      with its parent, and `rank` grows along its link, so that no chain is a cycle. */
  ghost predicate Placed(parent: seq<nat>, root: seq<nat>, rank: seq<nat>, i: nat)
    requires |root| == |rank| == |parent| && i < |parent|
  {
    && parent[i] < |parent|
    && root[i] < |parent|
    && parent[root[i]] == root[i]
    && root[parent[i]] == root[i]
    && if parent[i] == i then root[i] == i else rank[i] < rank[parent[i]]
  }

  ghost predicate Forest(parent: seq<nat>, root: seq<nat>, rank: seq<nat>, top: nat)
  {
    && |root| == |rank| == |parent|
    && (forall i: nat {:trigger Placed(parent, root, rank, i)} :: i < |parent| ==> Placed(parent, root, rank, i))
    && (forall i: nat :: i < |rank| ==> rank[i] <= top)
  }

  ghost function Raised(rank: seq<nat>, rx: nat, ry: nat): (raised: seq<nat>)
    requires rx < |rank| && ry < |rank|
    ensures |raised| == |rank|
  {
    if rank[ry] <= rank[rx] then rank[ry := rank[rx] + 1] else rank
  }

  lemma LinkKeepsForest(parent: seq<nat>, root: seq<nat>, rank: seq<nat>, top: nat, rx: nat, ry: nat)
    requires Forest(parent, root, rank, top)
    requires rx < |parent| && ry < |parent| && rx != ry && parent[rx] == rx && parent[ry] == ry
    ensures Forest(parent[rx := ry], Merged(root, rx, ry), Raised(rank, rx, ry), top + 1)
  {
    var p, r, k := parent[rx := ry], Merged(root, rx, ry), Raised(rank, rx, ry);
    assert Placed(parent, root, rank, rx) && Placed(parent, root, rank, ry);
    forall i: nat | i < |p|
      ensures Placed(p, r, k, i)
    {
      assert Placed(parent, root, rank, i);
    }
  }

  lemma HalvingKeepsForest(parent: seq<nat>, root: seq<nat>, rank: seq<nat>, top: nat, x: nat)
    requires Forest(parent, root, rank, top)
    requires x < |parent| && parent[x] != x
    ensures Placed(parent, root, rank, x) && Placed(parent, root, rank, parent[x])
    ensures Forest(parent[x := parent[parent[x]]], root, rank, top)
  {
    assert Placed(parent, root, rank, x);
    var y := parent[x];
    assert Placed(parent, root, rank, y);
    var p := parent[x := parent[y]];
    forall i: nat | i < |p|
      ensures Placed(p, root, rank, i)
    {
      assert Placed(parent, root, rank, i);
      assert i == x ==> Placed(parent, root, rank, parent[y]);
    }
  }

  class UnionFind {
    const parent: array<nat>
    ghost var root: seq<nat>
    ghost var rank: seq<nat>
    ghost var top: nat

    ghost predicate Valid()
      reads this, parent
    {
      Forest(parent[..], root, rank, top)
    }

    constructor (n: nat)
      ensures Valid() && fresh(parent)
      ensures root == seq(n, i => i)
    {
      parent := new nat[n](i => i);
      root := seq(n, i => i);
      rank := seq(n, _ => 0);
      top := 0;
    }

    /** Path halving: terminates although links form chains of any length, and rewrites
        links without moving any element to another class. */
    method Find(x: nat) returns (r: nat)
      requires Valid() && x < parent.Length
      modifies parent
      ensures Valid()
      ensures r == root[x] && r < parent.Length && parent[r] == r
    {
      r := x;
      assert Placed(parent[..], root, rank, x);
      while parent[r] != r
        invariant Valid() && r < parent.Length && root[r] == root[x]
        decreases top - rank[r]
      {
        ghost var before := parent[..];
        HalvingKeepsForest(before, root, rank, top, r);
        parent[r] := parent[parent[r]];
        assert parent[..] == before[r := before[before[r]]];
        r := parent[r];
      }
      assert Placed(parent[..], root, rank, r);
    }

    method Union(x: nat, y: nat)
      requires Valid() && x < parent.Length && y < parent.Length
      modifies this, parent
      ensures Valid()
      ensures root == Merged(old(root), x, y)
    {
      var rx := Find(x);
      var ry := Find(y);
      ghost var before := parent[..];
      assert Placed(before, root, rank, x) && Placed(before, root, rank, y);
      assert Placed(before, root, rank, rx) && Placed(before, root, rank, ry);
      assert Merged(root, rx, ry) == Merged(root, x, y);
      if rx == ry {
        assert Merged(root, x, y) == root;
      } else {
        LinkKeepsForest(before, root, rank, top, rx, ry);
        parent[rx] := ry;
        assert parent[..] == before[rx := ry];
        root, rank, top := Merged(root, rx, ry), Raised(rank, rx, ry), top + 1;
      }
    }
  }
}
