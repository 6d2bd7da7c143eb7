/** Setting one leaf: the nodes on its way are extended downwards and rehashed upwards. */
module SequentialSet {
  import opened SparseTree
  import opened ParallelClimb
  import opened ParallelMark

  /** The tree on the way down: nodes up to `target` exist, nothing else has changed. */
  ghost predicate Extended(job: Job, nodes: Nodes, target: Path) {
    && (forall p :: p in nodes <==> p in job.before || Below(target, p))
    && (forall p :: p in nodes ==> Depth(p) <= job.t.maxDepth)
    && (forall p :: p in nodes ==> nodes[p] == if p in job.before then job.before[p] else NewNode(job.t, p))
  }

  ghost predicate Above(target: Path, p: Path) {
    Below(target, p) && p != target
  }

  /** The tree on the way up: nodes strictly above `target` are still to be rehashed. */
  ghost predicate RehashedUpTo(job: Job, nodes: Nodes, target: Path) {
    && target in nodes
    && (forall p :: p in nodes ==> Depth(p) <= job.t.maxDepth && !nodes[p].leftMark && !nodes[p].rightMark)
    && (forall p :: Above(target, p) ==> p in nodes)
    && (forall p :: Depth(p) <= job.t.maxDepth && p.Child? && !Above(target, p) && p != target ==>
          (p in nodes <==> HasLeaves(Goal(job), p)))
    && (forall p :: p in nodes && !Above(target, p) ==> Depth(p) <= job.t.maxDepth && Correct(job, nodes[p], p))
  }

  lemma {:induction false} ExtendsOneLevel(job: Job, nodes: Nodes, c: Path)
    requires c.Child? && Depth(c) <= job.t.maxDepth && Extended(job, nodes, c.parent)
    ensures Extended(job, ExtendNode(nodes, job.t, c), c)
  {
    assert forall p :: Below(c, p) <==> p == c || Below(c.parent, p);
  }

  lemma {:induction false} LeafIsSet(job: Job, nodes: Nodes, k: Path)
    requires ValidJob(job) && job.items.Keys == {k} && Extended(job, nodes, k)
    ensures k in nodes
    ensures RehashedUpTo(job, nodes[k := SetLeaf(job.t, nodes[k], job.items[k], job.version)], k)
  {
    var after := nodes[k := SetLeaf(job.t, nodes[k], job.items[k], job.version)];
    assert k in job.items.Keys;
    NoMarksYet(job, nodes, k);
    forall p | Depth(p) <= job.t.maxDepth && !Below(k, p)
      ensures p in nodes ==> Correct(job, nodes[p], p)
      ensures p.Child? ==> (p in nodes <==> HasLeaves(Goal(job), p))
    {
      OffPathIsFinal(job, nodes, k, p);
    }
    assert Below(k, k) && Dirty(job.items.Keys, k);
  }

  lemma {:induction false} NoMarksYet(job: Job, nodes: Nodes, k: Path)
    requires ValidJob(job) && Extended(job, nodes, k)
    ensures forall p :: p in nodes ==> !nodes[p].leftMark && !nodes[p].rightMark
  {
    forall p | p in job.before ensures !job.before[p].leftMark && !job.before[p].rightMark {
      assert !Mark(job.before[p], false) && !Mark(job.before[p], true);
    }
  }

  lemma {:induction false} OffPathIsFinal(job: Job, nodes: Nodes, k: Path, p: Path)
    requires ValidJob(job) && job.items.Keys == {k} && Extended(job, nodes, k)
    requires Depth(p) <= job.t.maxDepth && !Below(k, p)
    ensures p in nodes ==> Correct(job, nodes[p], p)
    ensures p.Child? ==> (p in nodes <==> HasLeaves(Goal(job), p))
  {
    CleanSubtreeKept(job.t, job.items, p);
  }

  /** One round of rehashing. */
  lemma {:induction false} RehashesOneLevel(job: Job, nodes: Nodes, target: Path)
    requires RehashedUpTo(job, nodes, target) && target.Child? && Dirty(job.items.Keys, target)
    ensures target.parent in nodes && Depth(target.parent) < job.t.maxDepth
    ensures RehashedUpTo(job, Rehash(nodes, job.t, target.parent, job.version), target.parent)
  {
    var p := target.parent;
    assert Depth(target) == Depth(p) + 1;
    assert Above(target, p);
    DirtyGoesUp(job.items.Keys, target);
    RehashedNode(job, nodes, target);
    AboveParent(target);
  }

  lemma {:induction false} AboveParent(target: Path)
    requires target.Child?
    ensures forall p :: Above(target, p) <==> p == target.parent || Above(target.parent, p)
    ensures !Above(target.parent, target.parent)
  {
    assert Depth(target) == Depth(target.parent) + 1;
    assert Below(target, target.parent);
    forall p ensures Above(target, p) <==> p == target.parent || Above(target.parent, p) {
      if Above(target.parent, p) {
        BelowDepth(target.parent, p);
      }
    }
  }

  lemma {:induction false} ChildIsFinal(job: Job, nodes: Nodes, target: Path, right: bool)
    requires RehashedUpTo(job, nodes, target) && target.Child? && Depth(target.parent) < job.t.maxDepth
    ensures var c, goal := Child(target.parent, right), Goal(job);
            && c != target.parent
            && (c in nodes ==> nodes[c].active == HasLeaves(goal, c))
            && (c !in nodes ==> !HasLeaves(goal, c))
            && (c in nodes && c != target ==> HasLeaves(goal, c))
            && ChildHash(nodes, job.t, c) == HashAt(goal, c)
  {
    var c := Child(target.parent, right);
    assert Depth(c) == Depth(target.parent) + 1 == Depth(target);
    if Above(target, c) {
      BelowDepth(target, c);
      assert false;
    }
    if c in nodes {
      assert Correct(job, nodes[c], c);
    } else {
      NilHashMeansNoLeaves(Goal(job), c);
    }
  }

  lemma {:induction false} RehashedNode(job: Job, nodes: Nodes, target: Path)
    requires RehashedUpTo(job, nodes, target) && target.Child? && target.parent in nodes
    requires Depth(target.parent) < job.t.maxDepth && Dirty(job.items.Keys, target.parent)
    ensures Correct(job, Rehash(nodes, job.t, target.parent, job.version)[target.parent], target.parent)
    ensures var after := Rehash(nodes, job.t, target.parent, job.version);
            && (forall x :: x != target.parent && x != target ==>
                  (x in after <==> x in nodes) && (x in nodes ==> after[x] == nodes[x]))
            && (target in after <==> HasLeaves(Goal(job), target))
            && (target in after ==> after[target] == nodes[target])
            && !after[target.parent].leftMark && !after[target.parent].rightMark
  {
    var p, goal := target.parent, Goal(job);
    assert target == Child(p, target.right);
    ChildIsFinal(job, nodes, target, false);
    ChildIsFinal(job, nodes, target, true);
    HashOfInner(goal, p);
    NilHashMeansNoLeaves(goal, p);
  }

  lemma {:induction false} RootIsReached(job: Job, nodes: Nodes)
    requires ValidJob(job) && RehashedUpTo(job, nodes, Root)
    ensures SetsLeaves(job.before, nodes, job.t, job.items, job.version)
  {
    forall p, b: bool | p in nodes ensures !Mark(nodes[p], b) {
    }
    forall p ensures !Above(Root, p) {
    }
    forall p | p in nodes ensures Correct(job, nodes[p], p) {
    }
  }
}
