/** Openings of a sparse Merkle tree: the circuit's leaf-to-root recomputation against the tree. */
module MerkleOpenings {
  import opened SparseTree

  /** Path bits, lowest level first; a set bit means the node is the right child. */
  function Bits(k: Path): (bits: seq<bool>)
    ensures |bits| == Depth(k)
  {
    if k.Root? then [] else [k.right] + Bits(k.parent)
  }

  function HashSwap(state: Digest, sibling: Digest, swap: bool): Digest {
    if swap then Node2(sibling, state) else Node2(state, sibling)
  }

  /** The root that a leaf, its sibling hashes and its path bits determine. */
  function FoldUp(state: Digest, proofs: seq<Digest>, helpers: seq<bool>): Digest
    requires |proofs| == |helpers|
    decreases |proofs|
  {
    if proofs == [] then state
    else FoldUp(HashSwap(state, proofs[0], helpers[0]), proofs[1..], helpers[1..])
  }

  method RecalculateRoot(leaf: Digest, proofs: seq<Digest>, helpers: seq<bool>) returns (state: Digest)
    requires |proofs| == |helpers|
    ensures state == FoldUp(leaf, proofs, helpers)
  {
    state := leaf;
    for i := 0 to |proofs|
      invariant FoldUp(state, proofs[i..], helpers[i..]) == FoldUp(leaf, proofs, helpers)
    {
      assert proofs[i..][1..] == proofs[i + 1..] && helpers[i..][1..] == helpers[i + 1..];
      state := HashSwap(state, proofs[i], helpers[i]);
    }
  }

  /** The sibling hashes along the way from `k` to the root, straight from the flat map. */
  function Siblings(t: Flat, k: Path): (proof: seq<Digest>)
    requires Depth(k) <= t.maxDepth
    ensures |proof| == Depth(k)
  {
    if k.Root? then [] else [HashAt(t, Child(k.parent, !k.right))] + Siblings(t, k.parent)
  }

  /** A proof opens the root exactly when both the opened hash and every sibling are the tree's own. */
  lemma {:induction false} OpeningIsUnique(t: Flat, k: Path, hash: Digest, proof: seq<Digest>)
    requires Depth(k) <= t.maxDepth && |proof| == Depth(k)
    ensures FoldUp(hash, proof, Bits(k)) == RootHash(t) <==> hash == HashAt(t, k) && proof == Siblings(t, k)
  {
    if k.Child? {
      HashOfInner(t, k.parent);
      assert k == Child(k.parent, k.right);
      assert Bits(k)[1..] == Bits(k.parent);
      OpeningIsUnique(t, k.parent, HashSwap(hash, proof[0], k.right), proof[1..]);
      assert proof == [proof[0]] + proof[1..];
    }
  }

  lemma {:induction false} SiblingsKept(t: Flat, k: Path, value: Digest, p: Path)
    requires Depth(k) == t.maxDepth && Below(k, p)
    requires Depth(p) <= t.maxDepth
    ensures Siblings(Updated(t, map[k := value]), p) == Siblings(t, p)
  {
    if p.Child? {
      var sibling := Child(p.parent, !p.right);
      if Below(k, sibling) {
        BelowOneSibling(k, p, sibling);
        assert false;
      }
      CleanSubtreeKept(t, map[k := value], sibling);
      BelowTransitive(k, p, p.parent);
      SiblingsKept(t, k, value, p.parent);
    }
  }

  /** Recomputing the root with another leaf and the old siblings is the root after setting that leaf only. */
  lemma {:induction false} RecalculatedRootIsUpdate(t: Flat, k: Path, value: Digest)
    requires Depth(k) == t.maxDepth
    ensures FoldUp(value, Siblings(t, k), Bits(k)) == RootHash(Updated(t, map[k := value]))
  {
    SiblingsKept(t, k, value, k);
    OpeningIsUnique(Updated(t, map[k := value]), k, value, Siblings(t, k));
  }
}
