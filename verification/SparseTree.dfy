/** Sparse Merkle trees over a flat map of leaves. A node is named by its path from the root; a node that
    is not in the map is a nil child pointer.
 */
module SparseTree {
  import opened Shifts

  datatype Path = Root | Child(parent: Path, right: bool)

  function Depth(p: Path): nat {
    if p.Root? then 0 else Depth(p.parent) + 1
  }

  /** `p` lies on the way from the root to `k`, or is `k`. */
  predicate Below(k: Path, p: Path) {
    k == p || (k.Child? && Below(k.parent, p))
  }

  /** The child of `p` on the way to `k`. */
  function Toward(k: Path, p: Path): (c: Path)
    requires Below(k, p) && k != p
    ensures c.Child? && c.parent == p && Below(k, c)
  {
    if k.parent == p then k else Toward(k.parent, p)
  }

  lemma {:induction false} BelowTransitive(k: Path, q: Path, p: Path)
    requires Below(k, q) && Below(q, p)
    ensures Below(k, p)
  {
    if k != q {
      BelowTransitive(k.parent, q, p);
    }
  }

  lemma {:induction false} BelowDepth(k: Path, p: Path)
    requires Below(k, p)
    ensures Depth(p) <= Depth(k)
    ensures Depth(p) == Depth(k) ==> p == k
  {
    if k != p {
      BelowDepth(k.parent, p);
    }
  }

  /** Of two siblings at most one lies on the way to `k`. */
  lemma {:induction false} BelowOneSibling(k: Path, p: Path, q: Path)
    requires Below(k, p) && Below(k, q) && Depth(p) == Depth(q)
    ensures p == q
  {
    if k == p {
      BelowDepth(k, q);
    } else if k == q {
      BelowDepth(k, p);
    } else {
      BelowOneSibling(k.parent, p, q);
    }
  }

  lemma {:induction false} AllBelowRoot(k: Path)
    ensures Below(k, Root)
  {
    if k.Child? {
      AllBelowRoot(k.parent);
    }
  }

  // Keys

  /** The node that a key reaches after `depth` bits, most significant bit first. */
  function KeyPath(key: nat, depth: nat): (p: Path)
    ensures Depth(p) == depth
  {
    if depth == 0 then Root else Child(KeyPath(key / 2, depth - 1), key % 2 == 1)
  }

  lemma {:induction false} KeyPathInjective(a: nat, b: nat, depth: nat)
    requires a < ShiftLeft(1, depth) && b < ShiftLeft(1, depth)
    requires KeyPath(a, depth) == KeyPath(b, depth)
    ensures a == b
  {
    if depth > 0 {
      KeyPathInjective(a / 2, b / 2, depth - 1);
    }
  }

  // Hashes

  /** Node hashing is a free constructor: equal hashes have equal inputs. */
  datatype Digest = Word(value: int) | Node2(left: Digest, right: Digest)

  /** The hash of an empty subtree of the given height. */
  function Nil(nilLeaf: Digest, height: nat): Digest {
    if height == 0 then nilLeaf else Node2(Nil(nilLeaf, height - 1), Nil(nilLeaf, height - 1))
  }

  /** The tree as a flat map: leaves that are not listed are nil. */
  datatype Flat = Flat(values: map<Path, Digest>, nilLeaf: Digest, maxDepth: nat)

  function ValueAt(t: Flat, k: Path): Digest {
    if k in t.values then t.values[k] else t.nilLeaf
  }

  function SubtreeHash(t: Flat, p: Path, height: nat): Digest
    decreases height
  {
    if height == 0 then ValueAt(t, p)
    else Node2(SubtreeHash(t, Child(p, false), height - 1), SubtreeHash(t, Child(p, true), height - 1))
  }

  /** The Merkle hash of the subtree below `p`, straight from the flat map. */
  function HashAt(t: Flat, p: Path): Digest
    requires Depth(p) <= t.maxDepth
  {
    SubtreeHash(t, p, t.maxDepth - Depth(p))
  }

  function NilAt(t: Flat, p: Path): Digest
    requires Depth(p) <= t.maxDepth
  {
    Nil(t.nilLeaf, t.maxDepth - Depth(p))
  }

  function RootHash(t: Flat): Digest {
    HashAt(t, Root)
  }

  /** Some leaf below `p` is not nil. */
  predicate HasLeaves(t: Flat, p: Path)
    requires Depth(p) <= t.maxDepth
    decreases t.maxDepth - Depth(p)
  {
    if Depth(p) == t.maxDepth then ValueAt(t, p) != t.nilLeaf
    else HasLeaves(t, Child(p, false)) || HasLeaves(t, Child(p, true))
  }

  lemma {:induction false} HashOfInner(t: Flat, p: Path)
    requires Depth(p) < t.maxDepth
    ensures HashAt(t, p) == Node2(HashAt(t, Child(p, false)), HashAt(t, Child(p, true)))
    ensures NilAt(t, p) == Node2(NilAt(t, Child(p, false)), NilAt(t, Child(p, true)))
  {
  }

  /** A subtree hash is the nil hash of its height exactly when no leaf below is active. */
  lemma {:induction false} NilHashMeansNoLeaves(t: Flat, p: Path)
    requires Depth(p) <= t.maxDepth
    ensures HashAt(t, p) == NilAt(t, p) <==> !HasLeaves(t, p)
    decreases t.maxDepth - Depth(p)
  {
    if Depth(p) < t.maxDepth {
      HashOfInner(t, p);
      NilHashMeansNoLeaves(t, Child(p, false));
      NilHashMeansNoLeaves(t, Child(p, true));
    }
  }

  // Updates

  ghost predicate Dirty(keys: set<Path>, p: Path) {
    exists k :: k in keys && Below(k, p)
  }

  predicate LeafKeys(keys: set<Path>, depth: nat) {
    forall k :: k in keys ==> Depth(k) == depth
  }

  function Updated(t: Flat, items: map<Path, Digest>): Flat {
    t.(values := t.values + items)
  }

  /** Subtrees above no updated key keep hash and activity. */
  lemma {:induction false} CleanSubtreeKept(t: Flat, items: map<Path, Digest>, p: Path)
    requires Depth(p) <= t.maxDepth && !Dirty(items.Keys, p)
    ensures HashAt(Updated(t, items), p) == HashAt(t, p)
    ensures HasLeaves(Updated(t, items), p) <==> HasLeaves(t, p)
    decreases t.maxDepth - Depth(p)
  {
    if Depth(p) == t.maxDepth {
      assert Below(p, p);
    } else {
      forall b: bool ensures !Dirty(items.Keys, Child(p, b)) {
        DirtyGoesUp(items.Keys, Child(p, b));
      }
      CleanSubtreeKept(t, items, Child(p, false));
      CleanSubtreeKept(t, items, Child(p, true));
    }
  }

  lemma {:induction false} DirtyGoesUp(keys: set<Path>, p: Path)
    requires p.Child?
    ensures Dirty(keys, p) ==> Dirty(keys, p.parent)
  {
    if Dirty(keys, p) {
      var k :| k in keys && Below(k, p);
      BelowTransitive(k, p, p.parent);
    }
  }

  /** An inner node above some key has a child above that key. */
  lemma {:induction false} DirtyGoesDown(keys: set<Path>, p: Path, depth: nat)
    requires LeafKeys(keys, depth) && Dirty(keys, p)
    ensures Depth(p) <= depth
    ensures Depth(p) < depth ==> Dirty(keys, Child(p, false)) || Dirty(keys, Child(p, true))
    ensures Depth(p) == depth ==> p in keys
  {
    var k :| k in keys && Below(k, p);
    BelowDepth(k, p);
    if Depth(p) < depth {
      var c := Toward(k, p);
      assert c == Child(p, c.right);
    }
  }

  // Nodes

  datatype Node = Node(hash: Digest, active: bool, leftMark: bool, rightMark: bool, version: nat)

  type Nodes = map<Path, Node>

  function Mark(n: Node, right: bool): bool {
    if right then n.rightMark else n.leftMark
  }

  function NewNode(t: Flat, p: Path): Node
    requires Depth(p) <= t.maxDepth
  {
    Node(NilAt(t, p), false, false, false, 0)
  }

  predicate Right(n: Node, t: Flat, p: Path)
    requires Depth(p) <= t.maxDepth
  {
    n.hash == HashAt(t, p) && n.active == HasLeaves(t, p)
  }

  /** Every node carries the hash of the flat map, nothing is marked, and apart from the root exactly the
      nodes with an active leaf below them exist. */
  ghost predicate Settled(nodes: Nodes, t: Flat) {
    && t.maxDepth > 0
    && Root in nodes
    && (forall p :: p in nodes ==> Depth(p) <= t.maxDepth && Right(nodes[p], t, p))
    && (forall p, b :: p in nodes ==> !Mark(nodes[p], b))
    && (forall p :: Depth(p) <= t.maxDepth && p.Child? ==> (p in nodes <==> HasLeaves(t, p)))
  }

  /** What setting some leaves to a new version does to a settled tree: it is settled for the updated map;
      nodes above a set key carry the new version and all others keep theirs. */
  ghost predicate SetsLeaves(before: Nodes, after: Nodes, t: Flat, items: map<Path, Digest>, version: nat) {
    && Settled(after, Updated(t, items))
    && (forall p :: p in after && Dirty(items.Keys, p) ==> after[p].version == version)
    && (forall p :: p in after && !Dirty(items.Keys, p) ==> p in before && after[p].version == before[p].version)
  }

  /** The contract of an update leaves no choice. */
  lemma {:induction false} UpdateIsDetermined(
    before: Nodes, a: Nodes, b: Nodes, t: Flat, items: map<Path, Digest>, version: nat)
    requires SetsLeaves(before, a, t, items, version) && SetsLeaves(before, b, t, items, version)
    ensures a == b
  {
    forall p ensures p in a <==> p in b {
    }
    forall p | p in a && p in b ensures a[p] == b[p] {
      assert !Mark(a[p], true) && !Mark(a[p], false) && !Mark(b[p], true) && !Mark(b[p], false);
    }
  }

  /** Two updates in a row at the same version are one update. */
  lemma {:induction false} UpdatesCompose(
    n0: Nodes, n1: Nodes, n2: Nodes, t: Flat, i1: map<Path, Digest>, i2: map<Path, Digest>, version: nat)
    requires SetsLeaves(n0, n1, t, i1, version) && SetsLeaves(n1, n2, Updated(t, i1), i2, version)
    ensures SetsLeaves(n0, n2, t, i1 + i2, version)
  {
    assert t.values + i1 + i2 == t.values + (i1 + i2);
    forall p ensures Dirty((i1 + i2).Keys, p) <==> Dirty(i1.Keys, p) || Dirty(i2.Keys, p) {
    }
  }
}
