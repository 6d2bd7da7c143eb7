/** The second phase of a parallel multi-set: one worker per set leaf climbs towards the root. A node's
    mark bits decide which of its workers rehashes it and goes on. Every locked method is one atomic step,
    and a schedule, a list naming which worker moves next, is one interleaving.
 */
module ParallelClimb {
  import opened SparseTree

  datatype Worker = Worker(at: Path, version: nat)

  /** `log` lists the nodes in the order in which they were rehashed. */
  datatype Climb = Climb(nodes: Nodes, workers: map<Path, Worker>, log: seq<Path>)

  datatype Outcome =
    | Crash                        // a nil child pointer would be followed
    | Unmarked                     // the early return for an empty mark mask
    | Waits(nodes: Nodes)          // the other child is still being worked on
    | Rehashed(nodes: Nodes)       // the caller continues with this node

  function Toggle(n: Node, right: bool): Node {
    if right then n.(rightMark := !n.rightMark) else n.(leftMark := !n.leftMark)
  }

  function Prune(nodes: Nodes, c: Path): Nodes {
    if c in nodes && !nodes[c].active then nodes - {c} else nodes
  }

  function ChildHash(nodes: Nodes, t: Flat, c: Path): Digest
    requires Depth(c) <= t.maxDepth
  {
    if c in nodes then nodes[c].hash else NilAt(t, c)
  }

  /** Hashes a node from its children, and drops children without active leaves. */
  function Rehash(nodes: Nodes, t: Flat, p: Path, version: nat): Nodes
    requires p in nodes && Depth(p) < t.maxDepth
  {
    var l, r := Child(p, false), Child(p, true);
    var active := (l in nodes && nodes[l].active) || (r in nodes && nodes[r].active);
    var hash := if active then Node2(ChildHash(nodes, t, l), ChildHash(nodes, t, r)) else NilAt(t, p);
    Prune(Prune(nodes, l), r)[p := nodes[p].(hash := hash, active := active, version := version)]
  }

  function RecomputeMultiSet(nodes: Nodes, t: Flat, p: Path, right: bool, version: nat): Outcome
    requires p in nodes && Depth(p) < t.maxDepth
  {
    var n := nodes[p];
    if !n.leftMark && !n.rightMark then Unmarked
    else
      var toggled := nodes[p := Toggle(n, right)];
      if Child(p, right) !in toggled then Crash
      else
        var pruned := Prune(toggled, Child(p, right));
        if pruned[p].leftMark || pruned[p].rightMark then Waits(pruned)
        else Rehashed(Rehash(pruned, t, p, version))
  }

  /** One round of the loop of worker `k`: none when the node it would lock does not exist. */
  function Attempt(c: Climb, t: Flat, k: Path): Outcome
    requires k in c.workers
  {
    var q := c.workers[k].at;
    if q.Child? && q.parent in c.nodes && Depth(q) <= t.maxDepth
    then RecomputeMultiSet(c.nodes, t, q.parent, q.right, c.workers[k].version)
    else Crash
  }

  function Step(c: Climb, t: Flat, k: Path): Climb
    requires k in c.workers
  {
    match Attempt(c, t, k)
    case Crash => c
    case Unmarked => c.(workers := c.workers - {k})
    case Waits(nodes) => c.(nodes := nodes, workers := c.workers - {k})
    case Rehashed(nodes) =>
      var p := c.workers[k].at.parent;
      Climb(nodes,
            if p.Root? then c.workers - {k} else c.workers[k := c.workers[k].(at := p)],
            c.log + [p])
  }

  // The invariant

  predicate Marked(nodes: Nodes, p: Path, right: bool) {
    p in nodes && Mark(nodes[p], right)
  }

  /** Some child of the node has not reported yet. */
  predicate Pending(nodes: Nodes, p: Path) {
    Marked(nodes, p, false) || Marked(nodes, p, true)
  }

  /** The node has not reported to its parent yet. */
  predicate Owed(nodes: Nodes, p: Path) {
    p.Child? && Marked(nodes, p.parent, p.right)
  }

  function Positions(workers: map<Path, Worker>): set<Path> {
    set k | k in workers :: workers[k].at
  }

  /** The job: leaves `items` of the settled tree `before`, which holds `t`, are set to `version`. */
  datatype Job = Job(before: Nodes, t: Flat, items: map<Path, Digest>, version: nat)

  function Goal(job: Job): Flat {
    Updated(job.t, job.items)
  }

  ghost predicate ValidJob(job: Job) {
    && Settled(job.before, job.t)
    && LeafKeys(job.items.Keys, job.t.maxDepth)
  }

  ghost predicate Correct(job: Job, n: Node, p: Path)
    requires Depth(p) <= job.t.maxDepth
  {
    && Right(n, Goal(job), p)
    && (if Dirty(job.items.Keys, p) then n.version == job.version
        else p in job.before && n.version == job.before[p].version)
  }

  ghost predicate MarksOk(job: Job, nodes: Nodes) {
    && Root in nodes
    && (forall p :: p in nodes ==> Depth(p) <= job.t.maxDepth)
    && (forall p, b :: Marked(nodes, p, b) ==> Depth(p) < job.t.maxDepth && Dirty(job.items.Keys, Child(p, b)))
    && (forall p :: Pending(nodes, p) ==> p.Root? || Owed(nodes, p))
    && (forall p :: Owed(nodes, p) ==> p in nodes)
  }

  ghost predicate HashesOk(job: Job, nodes: Nodes) {
    && (forall p :: Depth(p) <= job.t.maxDepth && p in nodes && !Pending(nodes, p) ==> Correct(job, nodes[p], p))
    && (forall p :: Depth(p) <= job.t.maxDepth && p.Child? && !Owed(nodes, p) ==>
          (p in nodes <==> HasLeaves(Goal(job), p)))
  }

  ghost predicate WorkersOk(job: Job, c: Climb) {
    && (forall k :: k in c.workers ==>
          && c.workers[k].version == job.version
          && Owed(c.nodes, c.workers[k].at) && !Pending(c.nodes, c.workers[k].at))
    && (forall k1, k2 :: k1 in c.workers && k2 in c.workers && c.workers[k1].at == c.workers[k2].at ==> k1 == k2)
    && (forall p :: Owed(c.nodes, p) && !Pending(c.nodes, p) ==> p in Positions(c.workers))
  }

  /** Inner node that has to be rehashed. */
  ghost predicate ToRehash(job: Job, p: Path) {
    Depth(p) < job.t.maxDepth && Dirty(job.items.Keys, p)
  }

  ghost predicate LogOk(job: Job, c: Climb) {
    && (forall i, j :: 0 <= i < j < |c.log| ==> c.log[i] != c.log[j])
    && (forall p :: p in c.log <==> ToRehash(job, p) && !Pending(c.nodes, p))
    && (forall i, b :: 0 <= i < |c.log| && ToRehash(job, Child(c.log[i], b)) ==> Child(c.log[i], b) in c.log[..i])
  }

  ghost predicate Inv(job: Job, c: Climb) {
    && ValidJob(job)
    && MarksOk(job, c.nodes)
    && HashesOk(job, c.nodes)
    && WorkersOk(job, c)
    && LogOk(job, c)
  }

  // One step

  /** The node map after the worker at `q` has reported to its parent. */
  function Delivered(nodes: Nodes, q: Path): Nodes
    requires q.Child? && q.parent in nodes
  {
    Prune(nodes[q.parent := Toggle(nodes[q.parent], q.right)], q)
  }

  lemma {:induction false} DeliveredMarks(nodes: Nodes, q: Path)
    requires Owed(nodes, q) && !Pending(nodes, q)
    ensures forall p, b :: Marked(Delivered(nodes, q), p, b) <==> Marked(nodes, p, b) && Child(p, b) != q
    ensures forall p :: p != q ==> (p in Delivered(nodes, q) <==> p in nodes)
    ensures forall p :: p != q.parent && p in Delivered(nodes, q) ==> Delivered(nodes, q)[p] == nodes[p]
    ensures forall p :: p != q.parent ==> (Pending(Delivered(nodes, q), p) <==> Pending(nodes, p))
    ensures forall p :: Owed(Delivered(nodes, q), p) <==> Owed(nodes, p) && p != q
  {
    assert q != q.parent by { assert Depth(q) == Depth(q.parent) + 1; }
    assert Child(q.parent, q.right) == q;
    var after := Delivered(nodes, q);
    forall p, b ensures Marked(after, p, b) <==> Marked(nodes, p, b) && Child(p, b) != q {
      if p == q {
        assert !Marked(nodes, q, true) && !Marked(nodes, q, false);
      }
    }
  }

  /** `HashesOk` with one node still to be rehashed. */
  ghost predicate HashesOkBut(job: Job, nodes: Nodes, stale: Path) {
    && (forall p :: Depth(p) <= job.t.maxDepth && p in nodes && p != stale && !Pending(nodes, p) ==>
          Correct(job, nodes[p], p))
    && (forall p :: Depth(p) <= job.t.maxDepth && p.Child? && !Owed(nodes, p) ==>
          (p in nodes <==> HasLeaves(Goal(job), p)))
  }

  lemma {:induction false} DeliverKeepsMarks(job: Job, nodes: Nodes, q: Path)
    requires MarksOk(job, nodes)
    requires Owed(nodes, q) && !Pending(nodes, q)
    ensures MarksOk(job, Delivered(nodes, q))
  {
    DeliveredMarks(nodes, q);
  }

  lemma {:induction false} DeliverKeepsHashes(job: Job, nodes: Nodes, q: Path)
    requires MarksOk(job, nodes) && HashesOk(job, nodes)
    requires Owed(nodes, q) && !Pending(nodes, q)
    ensures HashesOkBut(job, Delivered(nodes, q), q.parent)
  {
    DeliveredMarks(nodes, q);
    assert q in nodes && Correct(job, nodes[q], q);
  }

  lemma {:induction false} ReportedChild(job: Job, nodes: Nodes, p: Path, right: bool)
    requires HashesOkBut(job, nodes, p) && Depth(p) < job.t.maxDepth
    requires !Owed(nodes, Child(p, right)) && !Pending(nodes, Child(p, right))
    ensures var c, goal := Child(p, right), Goal(job);
            && (c in nodes <==> HasLeaves(goal, c))
            && (c in nodes ==> Right(nodes[c], goal, c))
            && ChildHash(nodes, job.t, c) == HashAt(goal, c)
  {
    var c := Child(p, right);
    assert c != p by { assert Depth(c) == Depth(p) + 1; }
    if c in nodes {
      assert Correct(job, nodes[c], c);
    } else {
      NilHashMeansNoLeaves(Goal(job), c);
    }
  }

  lemma {:induction false} ReportedChildIsSettled(job: Job, nodes: Nodes, p: Path, right: bool)
    requires MarksOk(job, nodes) && !Pending(nodes, p)
    ensures !Owed(nodes, Child(p, right)) && !Pending(nodes, Child(p, right))
  {
  }

  /** The children of a fully reported node are final, so rehashing prunes nothing more and is correct. */
  lemma {:induction false} RehashIsCorrect(job: Job, nodes: Nodes, p: Path)
    requires MarksOk(job, nodes) && HashesOkBut(job, nodes, p)
    requires p in nodes && !Pending(nodes, p) && ToRehash(job, p)
    ensures Prune(Prune(nodes, Child(p, false)), Child(p, true)) == nodes
    ensures Correct(job, Rehash(nodes, job.t, p, job.version)[p], p)
  {
    var goal := Goal(job);
    ReportedChildIsSettled(job, nodes, p, false);
    ReportedChildIsSettled(job, nodes, p, true);
    ReportedChild(job, nodes, p, false);
    ReportedChild(job, nodes, p, true);
    HashOfInner(goal, p);
    NilHashMeansNoLeaves(goal, p);
  }

  lemma {:induction false} RehashFinishes(job: Job, nodes: Nodes, p: Path)
    requires MarksOk(job, nodes) && HashesOkBut(job, nodes, p)
    requires p in nodes && !Pending(nodes, p) && ToRehash(job, p)
    ensures MarksOk(job, Rehash(nodes, job.t, p, job.version))
    ensures HashesOk(job, Rehash(nodes, job.t, p, job.version))
    ensures forall x, b :: Marked(Rehash(nodes, job.t, p, job.version), x, b) <==> Marked(nodes, x, b)
  {
    RehashIsCorrect(job, nodes, p);
    var n := Rehash(nodes, job.t, p, job.version)[p];
    assert Mark(n, true) == Mark(nodes[p], true) && Mark(n, false) == Mark(nodes[p], false);
    assert Rehash(nodes, job.t, p, job.version) == nodes[p := n];
    ReplaceNode(job, nodes, p, n);
  }

  /** Replacing the stale node by a correct one. */
  lemma {:induction false} ReplaceNode(job: Job, nodes: Nodes, p: Path, n: Node)
    requires MarksOk(job, nodes) && HashesOkBut(job, nodes, p)
    requires p in nodes && Correct(job, n, p)
    requires forall b :: Mark(n, b) == Mark(nodes[p], b)
    ensures MarksOk(job, nodes[p := n])
    ensures HashesOk(job, nodes[p := n])
    ensures forall x, b :: Marked(nodes[p := n], x, b) <==> Marked(nodes, x, b)
  {
    var after := nodes[p := n];
    assert forall x, b :: Marked(after, x, b) <==> Marked(nodes, x, b);
    assert forall x :: Pending(after, x) <==> Pending(nodes, x);
    assert forall x :: Owed(after, x) <==> Owed(nodes, x);
  }

  /** A locked step: when `q` still owes its report, the node to lock has a mark and a child at `q`. */
  lemma {:induction false} RecomputeReports(nodes: Nodes, t: Flat, q: Path, version: nat)
    requires Owed(nodes, q) && !Pending(nodes, q) && q in nodes && Depth(q) <= t.maxDepth
    ensures q.parent in Delivered(nodes, q)
    ensures RecomputeMultiSet(nodes, t, q.parent, q.right, version)
         == if Pending(Delivered(nodes, q), q.parent) then Waits(Delivered(nodes, q))
            else Rehashed(Rehash(Delivered(nodes, q), t, q.parent, version))
  {
    assert Child(q.parent, q.right) == q;
    assert q != q.parent by { assert Depth(q) == Depth(q.parent) + 1; }
  }

  /** What the step of worker `k` does to each part of the state. */
  ghost predicate Reports(c: Climb, next: Climb, k: Path, version: nat)
    requires k in c.workers
  {
    var q := c.workers[k].at;
    && Owed(c.nodes, q) && !Pending(c.nodes, q)
    && (forall x, b :: Marked(next.nodes, x, b) <==> Marked(c.nodes, x, b) && Child(x, b) != q)
    && (if Pending(next.nodes, q.parent)
        then next.workers == c.workers - {k} && next.log == c.log
        else
          && next.workers == (if q.parent.Root? then c.workers - {k} else c.workers[k := Worker(q.parent, version)])
          && next.log == c.log + [q.parent])
  }

  lemma {:induction false} WorkerIsReady(job: Job, c: Climb, k: Path)
    requires MarksOk(job, c.nodes) && WorkersOk(job, c) && k in c.workers
    ensures var q := c.workers[k].at;
            && Owed(c.nodes, q) && !Pending(c.nodes, q) && q in c.nodes && Depth(q) <= job.t.maxDepth
            && c.workers[k].version == job.version
            && ToRehash(job, q.parent)
  {
    var q := c.workers[k].at;
    assert Child(q.parent, q.right) == q;
    DirtyGoesUp(job.items.Keys, q);
  }

  /** No worker ever meets an empty mark mask or a missing node: it either reports and stops, or reports
      and rehashes. */
  lemma {:induction false} AttemptSucceeds(job: Job, c: Climb, k: Path)
    requires MarksOk(job, c.nodes) && WorkersOk(job, c) && k in c.workers
    ensures Attempt(c, job.t, k).Waits? || Attempt(c, job.t, k).Rehashed?
    ensures var d := Delivered(c.nodes, c.workers[k].at);
            && c.workers[k].at.parent in d
            && Attempt(c, job.t, k) ==
               if Pending(d, c.workers[k].at.parent) then Waits(d)
               else Rehashed(Rehash(d, job.t, c.workers[k].at.parent, job.version))
  {
    WorkerIsReady(job, c, k);
    RecomputeReports(c.nodes, job.t, c.workers[k].at, job.version);
  }

  /** Pruning drops a childless node, so no part of the tree is lost with it. */
  lemma {:induction false} PrunedNodeIsChildless(job: Job, c: Climb, k: Path, right: bool)
    requires MarksOk(job, c.nodes) && HashesOk(job, c.nodes) && WorkersOk(job, c)
    requires k in c.workers && c.workers[k].at in c.nodes && !c.nodes[c.workers[k].at].active
    ensures Child(c.workers[k].at, right) !in c.nodes
  {
    var q := c.workers[k].at;
    WorkerIsReady(job, c, k);
    assert Correct(job, c.nodes[q], q);
    var child := Child(q, right);
    if Depth(child) <= job.t.maxDepth {
      assert !Owed(c.nodes, child);
      assert !HasLeaves(Goal(job), q);
    }
  }

  lemma {:induction false} StepNodes(job: Job, c: Climb, k: Path)
    requires ValidJob(job) && MarksOk(job, c.nodes) && HashesOk(job, c.nodes) && WorkersOk(job, c)
    requires k in c.workers
    ensures var next := Step(c, job.t, k);
            && Reports(c, next, k, job.version)
            && MarksOk(job, next.nodes) && HashesOk(job, next.nodes)
  {
    WorkerIsReady(job, c, k);
    AttemptSucceeds(job, c, k);
    var q := c.workers[k].at;
    DeliverKeepsMarks(job, c.nodes, q);
    DeliverKeepsHashes(job, c.nodes, q);
    DeliveredMarks(c.nodes, q);
    SettleIsCorrect(job, Delivered(c.nodes, q), q.parent);
    StepReports(c, job.t, k, q, Delivered(c.nodes, q));
  }

  /** The nodes after a report: the parent is rehashed when it was the last one. */
  function Settle(d: Nodes, t: Flat, p: Path, version: nat): Nodes
    requires p in d && Depth(p) < t.maxDepth
  {
    if Pending(d, p) then d else Rehash(d, t, p, version)
  }

  lemma {:induction false} SettleIsCorrect(job: Job, d: Nodes, p: Path)
    requires MarksOk(job, d) && HashesOkBut(job, d, p) && ToRehash(job, p) && p in d
    ensures var nodes := Settle(d, job.t, p, job.version);
            && MarksOk(job, nodes) && HashesOk(job, nodes)
            && (forall x, b :: Marked(nodes, x, b) <==> Marked(d, x, b))
  {
    if !Pending(d, p) {
      RehashFinishes(job, d, p);
    } else {
      PendingNodeExcused(job, d, p);
    }
  }

  lemma {:induction false} StepReports(c: Climb, t: Flat, k: Path, q: Path, d: Nodes)
    requires k in c.workers && q == c.workers[k].at && Depth(q) <= t.maxDepth
    requires Owed(c.nodes, q) && !Pending(c.nodes, q) && q.parent in d
    requires forall x, b :: Marked(d, x, b) <==> Marked(c.nodes, x, b) && Child(x, b) != q
    requires var nodes := Settle(d, t, q.parent, c.workers[k].version);
             forall x, b :: Marked(nodes, x, b) <==> Marked(d, x, b)
    requires Attempt(c, t, k) == if Pending(d, q.parent) then Waits(d)
                                 else Rehashed(Rehash(d, t, q.parent, c.workers[k].version))
    ensures Reports(c, Step(c, t, k), k, c.workers[k].version)
    ensures Step(c, t, k).nodes == Settle(d, t, q.parent, c.workers[k].version)
  {
  }

  lemma {:induction false} PendingNodeExcused(job: Job, nodes: Nodes, p: Path)
    requires HashesOkBut(job, nodes, p) && Pending(nodes, p)
    ensures HashesOk(job, nodes)
  {
  }

  lemma {:induction false} ReportsMarks(c: Climb, next: Climb, k: Path, version: nat)
    requires k in c.workers && Reports(c, next, k, version)
    ensures var q := c.workers[k].at;
            && (forall x :: Owed(next.nodes, x) <==> Owed(c.nodes, x) && x != q)
            && (forall x :: x != q.parent ==> (Pending(next.nodes, x) <==> Pending(c.nodes, x)))
            && Pending(c.nodes, q.parent) && q != q.parent
  {
    var q := c.workers[k].at;
    assert Child(q.parent, q.right) == q;
    assert Depth(q) == Depth(q.parent) + 1;
  }

  lemma {:induction false} StepWorkers(job: Job, c: Climb, next: Climb, k: Path)
    requires k in c.workers && Reports(c, next, k, job.version) && WorkersOk(job, c)
    requires c.workers[k].at.parent.Root? || Owed(c.nodes, c.workers[k].at.parent)
    ensures WorkersOk(job, next)
  {
    ReportsMarks(c, next, k, job.version);
    var p := c.workers[k].at.parent;
    forall x | Owed(next.nodes, x) && !Pending(next.nodes, x) ensures x in Positions(next.workers) {
      if x != p {
        assert x in Positions(c.workers);
        var j :| j in c.workers && c.workers[j].at == x;
        assert next.workers[j].at == x;
      } else {
        assert next.workers[k].at == x;
      }
    }
  }

  lemma {:induction false} StepLog(job: Job, c: Climb, next: Climb, k: Path)
    requires k in c.workers && Reports(c, next, k, job.version) && LogOk(job, c) && MarksOk(job, next.nodes)
    requires ToRehash(job, c.workers[k].at.parent)
    ensures LogOk(job, next)
  {
    ReportsMarks(c, next, k, job.version);
    var p := c.workers[k].at.parent;
    if !Pending(next.nodes, p) {
      forall i, b | 0 <= i < |next.log| && ToRehash(job, Child(next.log[i], b))
        ensures Child(next.log[i], b) in next.log[..i]
      {
        var child := Child(next.log[i], b);
        if i < |c.log| {
          assert next.log[..i] == c.log[..i];
        } else {
          assert next.log[..i] == c.log;
          assert child != p by { assert Depth(child) == Depth(p) + 1; }
          assert !Owed(next.nodes, child);
        }
      }
    }
  }

  lemma {:induction false} StepKeepsInv(job: Job, c: Climb, k: Path)
    requires Inv(job, c) && k in c.workers
    ensures Inv(job, Step(c, job.t, k))
    ensures Reports(c, Step(c, job.t, k), k, job.version)
  {
    WorkerIsReady(job, c, k);
    StepNodes(job, c, k);
    assert Pending(c.nodes, c.workers[k].at.parent);
    StepWorkers(job, c, Step(c, job.t, k), k);
    StepLog(job, c, Step(c, job.t, k), k);
  }

  // Whole schedules

  /** Reports still to be made. */
  function Debt(nodes: Nodes): set<Path> {
    set p | p in nodes && Owed(nodes, p)
  }

  lemma {:induction false} StepPaysDebt(c: Climb, next: Climb, k: Path, version: nat)
    requires k in c.workers && Reports(c, next, k, version)
    requires forall p :: Owed(c.nodes, p) ==> p in c.nodes
    requires forall p :: Owed(next.nodes, p) ==> p in next.nodes
    ensures |Debt(next.nodes)| == |Debt(c.nodes)| - 1
  {
    var q := c.workers[k].at;
    ReportsMarks(c, next, k, version);
    assert q in Debt(c.nodes);
    assert Debt(next.nodes) == Debt(c.nodes) - {q};
  }

  lemma {:induction false} StepPaysOne(job: Job, c: Climb, k: Path)
    requires Inv(job, c) && k in c.workers
    ensures Inv(job, Step(c, job.t, k))
    ensures |Debt(Step(c, job.t, k).nodes)| == |Debt(c.nodes)| - 1
  {
    StepKeepsInv(job, c, k);
    StepPaysDebt(c, Step(c, job.t, k), k, job.version);
  }

  /** A schedule names the worker that moves in each step; it fails when that worker has stopped. */
  predicate Possible(c: Climb, t: Flat, schedule: seq<Path>)
    decreases |schedule|
  {
    schedule == [] || (schedule[0] in c.workers && Possible(Step(c, t, schedule[0]), t, schedule[1..]))
  }

  function RunSchedule(c: Climb, t: Flat, schedule: seq<Path>): Climb
    requires Possible(c, t, schedule)
    decreases |schedule|
  {
    if schedule == [] then c else RunSchedule(Step(c, t, schedule[0]), t, schedule[1..])
  }

  lemma {:induction false} ScheduleKeepsInv(job: Job, c: Climb, schedule: seq<Path>)
    requires Inv(job, c) && Possible(c, job.t, schedule)
    ensures Inv(job, RunSchedule(c, job.t, schedule))
    ensures |schedule| + |Debt(RunSchedule(c, job.t, schedule).nodes)| == |Debt(c.nodes)|
    decreases |schedule|
  {
    if schedule != [] {
      StepPaysOne(job, c, schedule[0]);
      ScheduleKeepsInv(job, Step(c, job.t, schedule[0]), schedule[1..]);
    }
  }

  /** With no worker left there is no mark left either. */
  lemma {:induction false} NoWorkersNoMarks(job: Job, c: Climb, p: Path)
    requires Inv(job, c) && c.workers == map[]
    ensures !Owed(c.nodes, p) && !Pending(c.nodes, p)
    decreases job.t.maxDepth - Depth(p)
  {
    if Pending(c.nodes, p) {
      var child := Child(p, Marked(c.nodes, p, true));
      assert Marked(c.nodes, p, child.right);
      NoWorkersNoMarks(job, c, child);
      assert false;
    }
    if Owed(c.nodes, p) {
      assert false;
    }
  }

  /** When the last worker stops the tree is exactly the one the update asks for, every node above a set
      leaf was rehashed once, and after all such nodes below it. */
  lemma {:induction false} FinishedClimb(job: Job, c: Climb)
    requires Inv(job, c) && c.workers == map[]
    ensures SetsLeaves(job.before, c.nodes, job.t, job.items, job.version)
    ensures forall p :: p in c.log <==> ToRehash(job, p)
  {
    forall p ensures !Owed(c.nodes, p) && !Pending(c.nodes, p) {
      NoWorkersNoMarks(job, c, p);
    }
    forall p, b | p in c.nodes ensures !Mark(c.nodes[p], b) {
      assert !Pending(c.nodes, p);
    }
    forall p | p in c.nodes ensures Correct(job, c.nodes[p], p) {
    }
  }
}
