/** The tree of cores that messages travel along. */
module Trees {

  /** The cores of the group. Heights only witness that following parents ends at the root. */
  datatype Tree = Tree(root: nat, parent: seq<nat>, height: seq<nat>, id: seq<nat>)

  function Size(t: Tree): nat {
    |t.parent|
  }

  predicate IsChild(t: Tree, d: nat, c: nat) {
    d < Size(t) && d != t.root && t.parent[d] == c
  }

  /** A tree of at least two cores: on a group of one, the root would have to send to a missing parent. */
  ghost predicate ValidTree(t: Tree) {
    && t.root < Size(t) == |t.height| == |t.id|
    && (forall d | 0 <= d < Size(t) && d != t.root ::
          t.parent[d] < Size(t) && t.height[d] < t.height[t.parent[d]] && t.height[d] < t.height[t.root])
    && (exists d :: IsChild(t, d, t.root))
  }

  function Children(t: Tree, c: nat): set<nat> {
    set d | 0 <= d < Size(t) && IsChild(t, d, c)
  }
}
