/** The first phase of a parallel multi-set: one worker per item walks down from the root, marks and
    extends the nodes on its way, and sets its leaf. Every locked method is one atomic step.
 */
module ParallelMark {
  import opened SparseTree
  import opened ParallelClimb

  /** `at` is the node each worker has reached, `done` the leaves already set. */
  datatype Marking = Marking(nodes: Nodes, at: map<Path, Path>, done: set<Path>)

  function SetMark(n: Node, right: bool): Node {
    if right then n.(rightMark := true) else n.(leftMark := true)
  }

  function ExtendNode(nodes: Nodes, t: Flat, c: Path): Nodes
    requires Depth(c) <= t.maxDepth
  {
    if c in nodes then nodes else nodes[c := NewNode(t, c)]
  }

  function SetLeaf(t: Flat, n: Node, value: Digest, version: nat): Node {
    n.(hash := value, active := value != t.nilLeaf, version := version)
  }

  predicate Moves(job: Job, m: Marking, k: Path) {
    && k in m.at && k !in m.done && k in job.items
    && m.at[k] in m.nodes && Below(k, m.at[k]) && Depth(k) <= job.t.maxDepth
  }

  function MarkStep(job: Job, m: Marking, k: Path): Marking
    requires Moves(job, m, k)
  {
    var p := m.at[k];
    if p == k then
      m.(nodes := m.nodes[k := SetLeaf(job.t, m.nodes[k], job.items[k], job.version)], done := m.done + {k})
    else
      var c := Toward(k, p);
      BelowDepth(k, c);
      Marking(ExtendNode(m.nodes[p := SetMark(m.nodes[p], c.right)], job.t, c), m.at[k := c], m.done)
  }

  // The invariant

  ghost predicate Visited(at: map<Path, Path>, p: Path) {
    exists k :: k in at && Below(at[k], p)
  }

  predicate Walkers(job: Job, m: Marking) {
    && m.at.Keys == job.items.Keys
    && m.done <= job.items.Keys
    && (forall k :: k in m.at ==> Below(k, m.at[k]) && (k in m.done ==> m.at[k] == k))
  }

  /** Hash, activity and version of a node while marks are being set. */
  predicate Unhashed(job: Job, done: set<Path>, n: Node, p: Path)
    requires done <= job.items.Keys && Depth(p) <= job.t.maxDepth
  {
    if p in done then
      n.hash == job.items[p] && n.active == (job.items[p] != job.t.nilLeaf) && n.version == job.version
    else if p in job.before then
      n.hash == job.before[p].hash && n.active == job.before[p].active && n.version == job.before[p].version
    else n.hash == NilAt(job.t, p) && !n.active
  }

  ghost predicate MarksVisited(m: Marking) {
    forall p, b :: Marked(m.nodes, p, b) <==> Visited(m.at, Child(p, b))
  }

  ghost predicate NodesVisited(job: Job, m: Marking) {
    forall p :: p in m.nodes <==> p in job.before || Visited(m.at, p)
  }

  ghost predicate ContentKept(job: Job, m: Marking)
    requires m.done <= job.items.Keys
  {
    forall p :: p in m.nodes ==> Depth(p) <= job.t.maxDepth && Unhashed(job, m.done, m.nodes[p], p)
  }

  ghost predicate MarkInv(job: Job, m: Marking) {
    && ValidJob(job)
    && Walkers(job, m)
    && MarksVisited(m)
    && NodesVisited(job, m)
    && ContentKept(job, m)
  }

  lemma {:induction false} VisitedNext(at: map<Path, Path>, k: Path, c: Path, p: Path)
    requires k in at && c.Child? && c.parent == at[k]
    ensures Visited(at[k := c], p) <==> Visited(at, p) || p == c
  {
    var next := at[k := c];
    if Visited(next, p) && p != c {
      var j :| j in next && Below(next[j], p);
      assert Below(at[j], p);
    }
    if Visited(at, p) {
      var j :| j in at && Below(at[j], p);
      if j == k {
        assert Below(next[k], p);
      } else {
        assert Below(next[j], p);
      }
    }
    if p == c {
      assert Below(next[k], p);
    }
  }

  lemma {:induction false} WorkerMoves(job: Job, m: Marking, k: Path)
    requires MarkInv(job, m) && k in m.at && k !in m.done
    ensures Moves(job, m, k)
  {
    assert Below(m.at[k], m.at[k]);
    assert Visited(m.at, m.at[k]);
  }

  lemma {:induction false} MarkStepWalks(job: Job, m: Marking, k: Path)
    requires Moves(job, m, k) && m.at[k] != k
    requires Walkers(job, m) && MarksVisited(m) && NodesVisited(job, m)
    ensures MarksVisited(MarkStep(job, m, k)) && NodesVisited(job, MarkStep(job, m, k))
  {
    var p, next := m.at[k], MarkStep(job, m, k);
    var c := Toward(k, p);
    assert c != p by { assert Depth(c) == Depth(p) + 1; }
    forall x ensures Visited(next.at, x) <==> Visited(m.at, x) || x == c {
      VisitedNext(m.at, k, c, x);
    }
    BelowDepth(k, c);
    MarkExtends(m.nodes, job.t, p, c);
  }

  lemma {:induction false} MarkExtends(nodes: Nodes, t: Flat, p: Path, c: Path)
    requires p in nodes && c.Child? && c.parent == p && Depth(c) <= t.maxDepth && c != p
    ensures var after := ExtendNode(nodes[p := SetMark(nodes[p], c.right)], t, c);
            && (forall x, b :: Marked(after, x, b) <==> Marked(nodes, x, b) || Child(x, b) == c)
            && (forall x :: x in after <==> x in nodes || x == c)
  {
    var after := ExtendNode(nodes[p := SetMark(nodes[p], c.right)], t, c);
    forall x, b ensures Marked(after, x, b) <==> Marked(nodes, x, b) || Child(x, b) == c {
      if c !in nodes && x == c {
        assert !Marked(nodes, x, b);
      }
    }
  }

  lemma {:induction false} MarkStepSetsLeaf(job: Job, m: Marking, k: Path)
    requires Moves(job, m, k) && m.at[k] == k
    requires Walkers(job, m) && MarksVisited(m) && NodesVisited(job, m)
    ensures MarksVisited(MarkStep(job, m, k)) && NodesVisited(job, MarkStep(job, m, k))
  {
    var next := MarkStep(job, m, k);
    assert next.at == m.at;
    assert forall x, b :: Marked(next.nodes, x, b) <==> Marked(m.nodes, x, b);
  }

  lemma {:induction false} MarkStepKeepsContent(job: Job, m: Marking, k: Path)
    requires Moves(job, m, k) && m.at[k] != k
    requires Walkers(job, m) && ContentKept(job, m) && NodesVisited(job, m)
    ensures Walkers(job, MarkStep(job, m, k)) && ContentKept(job, MarkStep(job, m, k))
  {
    var p := m.at[k];
    var c := Toward(k, p);
    BelowDepth(k, c);
    if c in m.done {
      SetLeafIsPresent(job, m, c);
    }
    ContentExtends(job, m, p, c);
  }

  lemma {:induction false} ContentExtends(job: Job, m: Marking, p: Path, c: Path)
    requires m.done <= job.items.Keys && ContentKept(job, m) && p in m.nodes && c.Child? && c.parent == p
    requires Depth(c) <= job.t.maxDepth && (c in m.nodes || (c !in m.done && c !in job.before))
    ensures ContentKept(job, m.(nodes := ExtendNode(m.nodes[p := SetMark(m.nodes[p], c.right)], job.t, c)))
  {
    assert c != p by { assert Depth(c) == Depth(p) + 1; }
  }

  lemma {:induction false} SetLeafKeepsContent(job: Job, m: Marking, k: Path)
    requires Moves(job, m, k) && m.at[k] == k && Walkers(job, m) && ContentKept(job, m)
    ensures Walkers(job, MarkStep(job, m, k)) && ContentKept(job, MarkStep(job, m, k))
  {
  }

  lemma {:induction false} MarkStepKeepsInv(job: Job, m: Marking, k: Path)
    requires MarkInv(job, m) && Moves(job, m, k)
    ensures MarkInv(job, MarkStep(job, m, k))
  {
    if m.at[k] == k {
      SetLeafKeepsContent(job, m, k);
      MarkStepSetsLeaf(job, m, k);
    } else {
      MarkStepKeepsContent(job, m, k);
      MarkStepWalks(job, m, k);
    }
  }

  // Start and end

  function StartMarking(job: Job): Marking {
    Marking(job.before, map k | k in job.items :: Root, {})
  }

  lemma {:induction false} StartKeepsInv(job: Job)
    requires ValidJob(job)
    ensures MarkInv(job, StartMarking(job))
  {
    var m := StartMarking(job);
    forall k | k in m.at ensures Below(k, m.at[k]) {
      AllBelowRoot(k);
    }
    forall p, b ensures !Visited(m.at, Child(p, b)) {
    }
  }

  function StartClimb(m: Marking): Climb
    requires m.done <= m.nodes.Keys
  {
    Climb(m.nodes, map k | k in m.done :: Worker(k, m.nodes[k].version), [])
  }

  lemma {:induction false} AllVisited(job: Job, m: Marking, p: Path)
    requires MarkInv(job, m) && m.done == job.items.Keys
    ensures Visited(m.at, p) <==> Dirty(job.items.Keys, p)
  {
    if Dirty(job.items.Keys, p) {
      var k :| k in job.items.Keys && Below(k, p);
      assert Below(m.at[k], p);
    }
    if Visited(m.at, p) {
      var k :| k in m.at && Below(m.at[k], p);
      assert Below(k, p);
    }
  }

  /** Once all workers are done the marks are those of the set leaves, so the climb can start. */
  lemma {:induction false} MarkedTreeCanClimb(job: Job, m: Marking)
    requires MarkInv(job, m) && m.done == job.items.Keys
    ensures m.done <= m.nodes.Keys
    ensures Inv(job, StartClimb(m))
  {
    VisitedIsDirty(job, m);
    LeavesPresent(job, m);
    MarkedPending(job, m);
    MarkedHashes(job, m);
    MarkedWorkers(job, m);
    assert StartClimb(m).nodes == m.nodes;
  }

  lemma {:induction false} VisitedIsDirty(job: Job, m: Marking)
    requires MarkInv(job, m) && m.done == job.items.Keys
    ensures forall p :: Visited(m.at, p) <==> Dirty(job.items.Keys, p)
  {
    forall p ensures Visited(m.at, p) <==> Dirty(job.items.Keys, p) {
      AllVisited(job, m, p);
    }
  }

  lemma {:induction false} LeavesPresent(job: Job, m: Marking)
    requires Walkers(job, m) && NodesVisited(job, m) && m.done == job.items.Keys
    ensures m.done <= m.nodes.Keys
  {
    forall k | k in m.done ensures k in m.nodes {
      SetLeafIsPresent(job, m, k);
    }
  }

  lemma {:induction false} SetLeafIsPresent(job: Job, m: Marking, k: Path)
    requires Walkers(job, m) && NodesVisited(job, m) && k in m.done
    ensures k in m.nodes
  {
    assert Below(m.at[k], k);
    assert Visited(m.at, k);
  }

  lemma {:induction false} MarkedPending(job: Job, m: Marking)
    requires MarkInv(job, m) && forall p :: Visited(m.at, p) <==> Dirty(job.items.Keys, p)
    ensures MarksOk(job, m.nodes)
    ensures forall p :: Pending(m.nodes, p) <==> ToRehash(job, p)
    ensures forall p :: Owed(m.nodes, p) <==> p.Child? && Dirty(job.items.Keys, p)
  {
    var keys, depth := job.items.Keys, job.t.maxDepth;
    forall p, b | Marked(m.nodes, p, b) ensures Depth(p) < depth && Dirty(keys, Child(p, b)) {
      DirtyGoesDown(keys, Child(p, b), depth);
      assert Depth(Child(p, b)) == Depth(p) + 1;
    }
    forall p ensures Owed(m.nodes, p) <==> p.Child? && Dirty(keys, p) {
      if p.Child? {
        assert p == Child(p.parent, p.right);
      }
    }
    forall p ensures Pending(m.nodes, p) <==> ToRehash(job, p) {
      if ToRehash(job, p) {
        DirtyGoesDown(keys, p, depth);
      }
      forall b: bool | Marked(m.nodes, p, b) ensures Dirty(keys, p) {
        DirtyGoesUp(keys, Child(p, b));
      }
    }
  }

  lemma {:induction false} MarkedHashes(job: Job, m: Marking)
    requires MarkInv(job, m) && forall p :: Visited(m.at, p) <==> Dirty(job.items.Keys, p)
    requires m.done == job.items.Keys
    requires forall p :: Pending(m.nodes, p) <==> ToRehash(job, p)
    requires forall p :: Owed(m.nodes, p) <==> p.Child? && Dirty(job.items.Keys, p)
    ensures HashesOk(job, m.nodes)
  {
    var goal := Goal(job);
    forall p | Depth(p) <= job.t.maxDepth && p in m.nodes && !Pending(m.nodes, p)
      ensures Correct(job, m.nodes[p], p)
    {
      NodeIsFinal(job, m, p);
    }
    forall p | Depth(p) <= job.t.maxDepth && p.Child? && !Owed(m.nodes, p)
      ensures p in m.nodes <==> HasLeaves(goal, p)
    {
      CleanSubtreeKept(job.t, job.items, p);
    }
  }

  lemma {:induction false} NodeIsFinal(job: Job, m: Marking, p: Path)
    requires ValidJob(job) && m.done == job.items.Keys
    requires Depth(p) <= job.t.maxDepth && p in m.nodes && Unhashed(job, m.done, m.nodes[p], p)
    requires !ToRehash(job, p) && (p in job.before || Dirty(job.items.Keys, p))
    ensures Correct(job, m.nodes[p], p)
  {
    if Dirty(job.items.Keys, p) {
      DirtyGoesDown(job.items.Keys, p, job.t.maxDepth);
    } else {
      CleanSubtreeKept(job.t, job.items, p);
      if p in job.items {
        assert Below(p, p);
        assert false;
      }
    }
  }

  lemma {:induction false} MarkedWorkers(job: Job, m: Marking)
    requires MarkInv(job, m) && m.done == job.items.Keys && m.done <= m.nodes.Keys
    requires forall p :: Pending(m.nodes, p) <==> ToRehash(job, p)
    requires forall p :: Owed(m.nodes, p) <==> p.Child? && Dirty(job.items.Keys, p)
    ensures WorkersOk(job, StartClimb(m)) && LogOk(job, StartClimb(m))
  {
    var c := StartClimb(m);
    forall k | k in c.workers ensures Owed(c.nodes, k) && !Pending(c.nodes, k) && c.workers[k].version == job.version {
      assert Below(k, k);
      assert Dirty(job.items.Keys, k);
    }
    forall p | Owed(c.nodes, p) && !Pending(c.nodes, p) ensures p in Positions(c.workers) {
      DirtyGoesDown(job.items.Keys, p, job.t.maxDepth);
      assert c.workers[p].at == p;
    }
  }
}
