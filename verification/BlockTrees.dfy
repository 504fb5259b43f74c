/** The block tree and the order that chooses the best chain. */
module BlockTrees {
  import opened Ledger

  datatype Header = Header(hash: Hash, previous: Hash, target: nat, timestamp: int, quality: nat)

  /** A block node: its header, the sum of the targets up to it, and its distance from the root. */
  datatype Node = Node(header: Header, capSum: nat, height: nat)

  type Index = map<Hash, Node>

  /** Every node but the root has its parent in the tree and adds its own target to the sum. */
  ghost predicate WellFormed(index: Index, root: Hash) {
    && root in index && index[root].height == 0
    && (forall h :: h in index ==> index[h].header.hash == h)
    && (forall h :: h in index && h != root ==> Linked(index, h))
  }

  ghost predicate Linked(index: Index, h: Hash)
    requires h in index
  {
    var n := index[h];
    && n.header.previous in index && n.header.target > 0
    && n.height == index[n.header.previous].height + 1
    && n.capSum == index[n.header.previous].capSum + n.header.target
  }

  /** The nodes from the root to h. */
  ghost function Path(index: Index, root: Hash, h: Hash): (r: seq<Hash>)
    requires WellFormed(index, root) && h in index
    ensures |r| >= 1 && r[|r| - 1] == h && r[0] == root
    decreases index[h].height
  {
    if h == root then [root] else assert Linked(index, h); Path(index, root, index[h].header.previous) + [h]
  }

  lemma PathStep(index: Index, root: Hash, h: Hash)
    requires WellFormed(index, root) && h in index && h != root
    ensures index[h].header.previous in index && index[index[h].header.previous].height < index[h].height
    ensures Path(index, root, h) == Path(index, root, index[h].header.previous) + [h]
  {
    assert Linked(index, h);
  }

  lemma RootPath(index: Index, root: Hash)
    requires WellFormed(index, root)
    ensures Path(index, root, root) == [root]
  {
  }

  /** Heights count along a path. */
  lemma {:induction false} PathHeights(index: Index, root: Hash, h: Hash)
    requires WellFormed(index, root) && h in index
    ensures |Path(index, root, h)| == index[h].height + 1
    ensures forall i :: 0 <= i <= index[h].height ==>
              Path(index, root, h)[i] in index && index[Path(index, root, h)[i]].height == i
    decreases index[h].height
  {
    if h != root {
      assert Linked(index, h);
      PathHeights(index, root, index[h].header.previous);
    }
  }

  ghost function Members(p: seq<Hash>): set<Hash> {
    set h | h in p
  }

  /** A path ends with a node of it only once. */
  lemma PathDistinct(index: Index, root: Hash, h: Hash)
    requires WellFormed(index, root) && h in index && h != root
    ensures index[h].header.previous in index
    ensures h !in Path(index, root, index[h].header.previous)
    ensures Members(Path(index, root, h)) == Members(Path(index, root, index[h].header.previous)) + {h}
  {
    PathStep(index, root, h);
    hide Path, WellFormed;
    PathHeights(index, root, index[h].header.previous);
  }

  /** The path to a node on the path to h is a prefix of it. */
  lemma {:induction false} PathPrefix(index: Index, root: Hash, h: Hash, a: Hash)
    requires WellFormed(index, root) && h in index && a in Path(index, root, h)
    ensures a in index && Path(index, root, a) <= Path(index, root, h)
    decreases index[h].height
  {
    if a != h && h != root {
      assert Linked(index, h);
      PathPrefix(index, root, index[h].header.previous, a);
    }
  }

  /** Attaching a leaf changes no path. */
  lemma {:induction false} PathStable(index: Index, root: Hash, h: Hash, leaf: Hash, n: Node)
    requires WellFormed(index, root) && h in index && leaf !in index && WellFormed(index[leaf := n], root)
    ensures Path(index[leaf := n], root, h) == Path(index, root, h)
    decreases index[h].height
  {
    if h != root {
      assert Linked(index, h);
      PathStable(index, root, index[h].header.previous, leaf, n);
    }
  }

  /** The node attachBlockNode makes under its parent. */
  function Leaf(index: Index, x: Header): Node
    requires x.previous in index
  {
    Node(x, index[x.previous].capSum + x.target, index[x.previous].height + 1)
  }

  lemma LeafWellFormed(index: Index, root: Hash, x: Header)
    requires WellFormed(index, root) && x.hash !in index && x.previous in index && x.target > 0
    ensures WellFormed(index[x.hash := Leaf(index, x)], root)
  {
    var more := index[x.hash := Leaf(index, x)];
    forall h | h in more && h != root
      ensures Linked(more, h)
    {
      if h != x.hash {
        assert Linked(index, h);
      }
    }
  }

  // ----- the order

  /** The comparison that decides whether the side node a should replace the best node b. */
  predicate Better(a: Node, b: Node) {
    if a.capSum != b.capSum then a.capSum > b.capSum
    else if a.header.timestamp != b.header.timestamp then a.header.timestamp < b.header.timestamp
    else if a.header.quality != b.header.quality then a.header.quality > b.header.quality
    else a.header.hash < b.header.hash
  }

  lemma BetterIsStrictTotal(a: Node, b: Node, c: Node)
    ensures !(Better(a, b) && Better(b, a))
    ensures Better(a, b) && Better(b, c) ==> Better(a, c)
    ensures Better(a, b) || Better(b, a) || a.header.hash == b.header.hash
  {
  }

  /** Better than every other node of the tree. */
  ghost predicate IsBest(index: Index, best: Hash) {
    best in index && forall h :: h in index && h != best ==> Better(index[best], index[h])
  }

  /** Longer branches win: a node is better than each of its proper ancestors. */
  lemma {:induction false} DescendantBetter(index: Index, root: Hash, h: Hash, a: Hash)
    requires WellFormed(index, root) && h in index && a in Path(index, root, h) && a != h
    ensures a in index && Better(index[h], index[a]) && index[h].capSum > index[a].capSum
    decreases index[h].height
  {
    assert Linked(index, h);
    var p := index[h].header.previous;
    if a != p {
      DescendantBetter(index, root, p, a);
    }
  }

  /** The sums and heights follow from the headers, so trees of the same headers are equal. */
  lemma {:induction false} SameNode(a: Index, b: Index, root: Hash, h: Hash)
    requires WellFormed(a, root) && WellFormed(b, root) && a.Keys == b.Keys && a[root] == b[root] && h in a
    requires forall k :: k in a ==> a[k].header == b[k].header
    ensures a[h] == b[h]
    decreases a[h].height
  {
    if h != root {
      assert Linked(a, h) && Linked(b, h);
      SameNode(a, b, root, a[h].header.previous);
    }
  }

  /** Which headers were accepted decides the best node; the order in which they came does not. */
  lemma BestDetermined(a: Index, bestA: Hash, b: Index, bestB: Hash, root: Hash)
    requires WellFormed(a, root) && WellFormed(b, root) && a.Keys == b.Keys && a[root] == b[root]
    requires forall k :: k in a ==> a[k].header == b[k].header
    requires IsBest(a, bestA) && IsBest(b, bestB)
    ensures bestA == bestB && a == b
  {
    forall h | h in a
      ensures a[h] == b[h]
    {
      SameNode(a, b, root, h);
    }
  }
}
