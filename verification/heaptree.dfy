// A binary tree laid out in a flat array: internal nodes at 0 to n - 2, the n leaves at n - 1 to
// 2n - 2, the children of i at 2i + 1 and 2i + 2, and every internal node the join of its children.
// Nothing here knows what the join computes.
module HeapTree {
  type Join<!T> = (T, T) -> T

  // The value at heap index i.
  function Subtree<T>(join: Join<T>, leaves: seq<T>, i: nat): T
    requires i < 2 * |leaves| - 1
    decreases 2 * |leaves| - i
  {
    if i >= |leaves| - 1 then leaves[i - (|leaves| - 1)]
    else join(Subtree(join, leaves, 2 * i + 1), Subtree(join, leaves, 2 * i + 2))
  }

  lemma LeafIsSubtree<T>(join: Join<T>, leaves: seq<T>, k: nat)
    requires k < |leaves|
    ensures Subtree(join, leaves, |leaves| - 1 + k) == leaves[k]
  {}

  // n - 1 places for internal nodes, then the n leaves.
  method FlatArray<T>(leaves: seq<T>, blank: T) returns (tree: array<T>)
    requires |leaves| > 0
    ensures fresh(tree) && tree.Length == 2 * |leaves| - 1
    ensures forall j | |leaves| - 1 <= j < 2 * |leaves| - 1 :: tree[j] == leaves[j - (|leaves| - 1)]
  {
    var flat := seq(|leaves| - 1, _ => blank) + leaves;
    tree := new T[|flat|](i requires 0 <= i < |flat| => flat[i]);
  }

  // The bottom-up pass over the flat array, blank in the places still to be filled.
  method Fill<T>(join: Join<T>, leaves: seq<T>, blank: T) returns (root: T)
    requires |leaves| > 0
    ensures root == Subtree(join, leaves, 0)
  {
    var n := |leaves|;
    var tree := FlatArray(leaves, blank);
    for i := n - 1 downto 0
      invariant forall j {:trigger tree[j]} | i <= j < 2 * n - 1 :: tree[j] == Subtree(join, leaves, j)
    {
      tree[i] := join(tree[2 * i + 1], tree[2 * i + 2]);
    }
    root := tree[0];
  }

  // What joining the elements of a path one after the other to x gives.
  function Fold<T>(join: Join<T>, x: T, path: seq<T>): T {
    if path == [] then x else join(path[|path| - 1], Fold(join, x, path[..|path| - 1]))
  }

  // ----- a path from every place to the root

  ghost function Sibling(i: nat): nat
    requires i > 0
  {
    if i % 2 == 1 then i + 1 else i - 1
  }

  // The siblings met on the way from heap index i to the root.
  ghost function Siblings<T>(join: Join<T>, leaves: seq<T>, i: nat): seq<T>
    requires i < 2 * |leaves| - 1
    decreases i
  {
    if i == 0 then [] else [Subtree(join, leaves, Sibling(i))] + Siblings(join, leaves, (i - 1) / 2)
  }

  lemma {:induction false} FoldFirst<T>(join: Join<T>, y: T, x: T, rest: seq<T>)
    ensures Fold(join, x, [y] + rest) == Fold(join, join(y, x), rest)
  {
    if rest != [] {
      FoldFirst(join, y, x, rest[..|rest| - 1]);
      assert ([y] + rest)[..|rest|] == [y] + rest[..|rest| - 1];
    }
  }

  // When the join is symmetric on the tree, the siblings of a place join up to the root.
  lemma {:induction false} SiblingsReachRoot<T>(join: Join<T>, leaves: seq<T>, i: nat)
    requires i < 2 * |leaves| - 1
    requires forall j, k | 0 <= j < 2 * |leaves| - 1 && 0 <= k < 2 * |leaves| - 1 ::
               var a, b := Subtree(join, leaves, j), Subtree(join, leaves, k); join(a, b) == join(b, a)
    ensures Fold(join, Subtree(join, leaves, i), Siblings(join, leaves, i)) == Subtree(join, leaves, 0)
    decreases i
  {
    if i > 0 {
      var up, s := (i - 1) / 2, Sibling(i);
      assert (s == 2 * up + 1 && i == 2 * up + 2) || (s == 2 * up + 2 && i == 2 * up + 1);
      assert join(Subtree(join, leaves, s), Subtree(join, leaves, i)) == Subtree(join, leaves, up);
      FoldFirst(join, Subtree(join, leaves, s), Subtree(join, leaves, i), Siblings(join, leaves, up));
      SiblingsReachRoot(join, leaves, up);
    }
  }

  ghost function Pow2(n: nat): nat {
    if n == 0 then 1 else 2 * Pow2(n - 1)
  }

  lemma {:induction false} SiblingsShort<T>(join: Join<T>, leaves: seq<T>, i: nat, d: nat)
    requires i < 2 * |leaves| - 1 && i + 1 < 2 * Pow2(d)
    ensures |Siblings(join, leaves, i)| <= d
    decreases i
  {
    if i > 0 { SiblingsShort(join, leaves, (i - 1) / 2, d - 1); }
  }

  // ----- the leaves of a subtree

  ghost function LeavesUnder<T>(leaves: seq<T>, i: nat): iset<T>
    requires i < 2 * |leaves| - 1
    decreases 2 * |leaves| - i
  {
    if i >= |leaves| - 1 then iset{leaves[i - (|leaves| - 1)]}
    else LeavesUnder(leaves, 2 * i + 1) + LeavesUnder(leaves, 2 * i + 2)
  }

  lemma {:induction false} LeavesUnderAncestor<T>(leaves: seq<T>, k: nat, x: T)
    requires k < 2 * |leaves| - 1 && x in LeavesUnder(leaves, k)
    ensures x in LeavesUnder(leaves, 0)
    decreases k
  {
    if k > 0 { LeavesUnderAncestor(leaves, (k - 1) / 2, x); }
  }

  lemma {:induction false} LeavesUnderAreLeaves<T>(leaves: seq<T>, i: nat, x: T)
    requires i < 2 * |leaves| - 1 && x in LeavesUnder(leaves, i)
    ensures x in leaves
    decreases 2 * |leaves| - i
  {
    if i < |leaves| - 1 {
      LeavesUnderAreLeaves(leaves, if x in LeavesUnder(leaves, 2 * i + 1) then 2 * i + 1 else 2 * i + 2, x);
    }
  }

  lemma AllLeavesUnderRoot<T>(leaves: seq<T>, x: T)
    requires |leaves| > 0
    ensures x in LeavesUnder(leaves, 0) <==> x in leaves
  {
    if x in leaves {
      var k :| 0 <= k < |leaves| && leaves[k] == x;
      LeavesUnderAncestor(leaves, |leaves| - 1 + k, x);
    }
    if x in LeavesUnder(leaves, 0) { LeavesUnderAreLeaves(leaves, 0, x); }
  }

  // ----- what an unexpected equality comes down to

  // Two equal joins whose parts do not match, or a leaf that is also a join.
  datatype Clash<T> = NoClash | Joins(a: T, b: T, c: T, d: T) | LeafJoin(leaf: T, a: T, b: T)

  ghost predicate IsLeafJoin<T>(clash: Clash<T>, join: Join<T>, leaves: seq<T>) {
    clash.LeafJoin? && clash.leaf in leaves && clash.leaf == join(clash.a, clash.b)
  }

  // The two values under place i.
  ghost function ChildrenOf<T>(join: Join<T>, leaves: seq<T>, i: nat): (T, T)
    requires i < |leaves| - 1
  {
    (Subtree(join, leaves, 2 * i + 1), Subtree(join, leaves, 2 * i + 2))
  }

  ghost predicate AreChildren<T>(join: Join<T>, leaves: seq<T>, x: T, y: T) {
    exists i :: 0 <= i < |leaves| - 1 && ChildrenOf(join, leaves, i) == (x, y)
  }

  // Places of two trees with one value have the same leaves below, or there is a clash.
  lemma {:induction false} SameValueSameLeaves<T>(join: Join<T>, l1: seq<T>, i: nat, l2: seq<T>, j: nat)
    returns (clash: Clash<T>)
    requires i < 2 * |l1| - 1 && j < 2 * |l2| - 1
    requires Subtree(join, l1, i) == Subtree(join, l2, j)
    ensures match clash
            case NoClash => LeavesUnder(l1, i) == LeavesUnder(l2, j)
            case Joins(a, b, c, d) =>
              && join(a, b) == join(c, d) && !(a == c && b == d) && !(a == d && b == c)
              && AreChildren(join, l1, a, b) && AreChildren(join, l2, c, d)
            case LeafJoin(leaf, a, b) =>
              || (IsLeafJoin(clash, join, l1) && AreChildren(join, l2, a, b))
              || (IsLeafJoin(clash, join, l2) && AreChildren(join, l1, a, b))
    decreases 2 * |l1| - i
  {
    var v := Subtree(join, l1, i);
    if i >= |l1| - 1 && j >= |l2| - 1 {
      clash := NoClash;
    } else if i >= |l1| - 1 {
      clash := LeafJoin(v, ChildrenOf(join, l2, j).0, ChildrenOf(join, l2, j).1);
    } else if j >= |l2| - 1 {
      clash := LeafJoin(v, ChildrenOf(join, l1, i).0, ChildrenOf(join, l1, i).1);
    } else {
      var a, b := Subtree(join, l1, 2 * i + 1), Subtree(join, l1, 2 * i + 2);
      var c, d := Subtree(join, l2, 2 * j + 1), Subtree(join, l2, 2 * j + 2);
      if a == c && b == d {
        clash := SameValueSameLeaves(join, l1, 2 * i + 1, l2, 2 * j + 1);
        if clash.NoClash? { clash := SameValueSameLeaves(join, l1, 2 * i + 2, l2, 2 * j + 2); }
      } else if a == d && b == c {
        clash := SameValueSameLeaves(join, l1, 2 * i + 1, l2, 2 * j + 2);
        if clash.NoClash? { clash := SameValueSameLeaves(join, l1, 2 * i + 2, l2, 2 * j + 1); }
      } else {
        assert ChildrenOf(join, l1, i) == (a, b) && ChildrenOf(join, l2, j) == (c, d);
        clash := Joins(a, b, c, d);
      }
    }
  }

  // A value that joins up along a path to the value at heap index i is a leaf, or there is a clash
  // between a join made along the path and one made in the tree.
  lemma {:induction false} PathFromLeaf<T>(join: Join<T>, leaves: seq<T>, i: nat, x: T, path: seq<T>)
    returns (clash: Clash<T>, k: nat)
    requires i < 2 * |leaves| - 1 && Fold(join, x, path) == Subtree(join, leaves, i)
    ensures k <= |path|
    ensures match clash
            case NoClash => x in leaves
            case Joins(a, b, c, d) =>
              && k < |path| && a == path[k] && b == Fold(join, x, path[..k]) && b != c && b != d
              && join(a, b) == join(c, d) && AreChildren(join, leaves, c, d)
            case LeafJoin(leaf, a, b) =>
              && leaf == join(a, b)
              && if k == |path| then leaf == x && AreChildren(join, leaves, a, b)
                 else leaf in leaves && a == path[k] && b == Fold(join, x, path[..k])
    decreases |path|
  {
    var n, m := |leaves|, |path| - 1;
    if path == [] {
      k := 0;
      clash := if i >= n - 1 then NoClash
               else LeafJoin(x, ChildrenOf(join, leaves, i).0, ChildrenOf(join, leaves, i).1);
    } else {
      var h := Fold(join, x, path[..m]);
      if i >= n - 1 {
        clash, k := LeafJoin(Subtree(join, leaves, i), path[m], h), m;
      } else {
        var c, d := Subtree(join, leaves, 2 * i + 1), Subtree(join, leaves, 2 * i + 2);
        if h == c || h == d {
          clash, k := PathFromLeaf(join, leaves, if h == c then 2 * i + 1 else 2 * i + 2, x, path[..m]);
          if k < m { assert path[..m][..k] == path[..k]; }
          if k == m { k := |path|; }
        } else {
          assert ChildrenOf(join, leaves, i) == (c, d);
          clash, k := Joins(path[m], h, c, d), m;
        }
      }
    }
  }
}
