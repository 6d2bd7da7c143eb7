/** Parallel multi-set as a whole: every interleaving of both phases, against sequential sets. */
module ParallelRuns {
  import opened SparseTree
  import opened ParallelClimb
  import opened ParallelMark

  // Parallel runs

  /** Schedules of the first phase. */
  predicate MarkPossible(job: Job, m: Marking, schedule: seq<Path>)
    decreases |schedule|
  {
    schedule == []
    || (Moves(job, m, schedule[0]) && MarkPossible(job, MarkStep(job, m, schedule[0]), schedule[1..]))
  }

  function RunMarking(job: Job, m: Marking, schedule: seq<Path>): Marking
    requires MarkPossible(job, m, schedule)
    decreases |schedule|
  {
    if schedule == [] then m else RunMarking(job, MarkStep(job, m, schedule[0]), schedule[1..])
  }

  lemma {:induction false} MarkingKeepsInv(job: Job, m: Marking, schedule: seq<Path>)
    requires MarkInv(job, m) && MarkPossible(job, m, schedule)
    ensures MarkInv(job, RunMarking(job, m, schedule))
    decreases |schedule|
  {
    if schedule != [] {
      MarkStepKeepsInv(job, m, schedule[0]);
      MarkingKeepsInv(job, MarkStep(job, m, schedule[0]), schedule[1..]);
    }
  }

  ghost predicate RehashedInOrder(job: Job, log: seq<Path>) {
    && (forall i, j :: 0 <= i < j < |log| ==> log[i] != log[j])
    && (forall p :: p in log <==> ToRehash(job, p))
    && (forall i, b :: 0 <= i < |log| && ToRehash(job, Child(log[i], b)) ==> Child(log[i], b) in log[..i])
  }

  /** First phase, every interleaving: a worker that has not set its leaf can always move, and when all have,
      the marks are exactly those the second phase needs. */
  lemma {:induction false} EveryMarkingIsComplete(job: Job, marking: seq<Path>)
    requires ValidJob(job) && MarkPossible(job, StartMarking(job), marking)
    ensures var m := RunMarking(job, StartMarking(job), marking);
            && (forall k :: k in job.items && k !in m.done ==> Moves(job, m, k))
            && (m.done == job.items.Keys ==> m.done <= m.nodes.Keys && Inv(job, StartClimb(m)))
  {
    StartKeepsInv(job);
    MarkingKeepsInv(job, StartMarking(job), marking);
    MarkInvMeans(job, RunMarking(job, StartMarking(job), marking));
  }

  lemma {:induction false} MarkInvMeans(job: Job, m: Marking)
    requires MarkInv(job, m)
    ensures forall k :: k in job.items && k !in m.done ==> Moves(job, m, k)
    ensures m.done == job.items.Keys ==> m.done <= m.nodes.Keys && Inv(job, StartClimb(m))
  {
    forall k | k in job.items && k !in m.done ensures Moves(job, m, k) {
      WorkerMoves(job, m, k);
    }
    if m.done == job.items.Keys {
      MarkedTreeCanClimb(job, m);
    }
  }

  /** Safety over every interleaving of both phases: no locked step fails or returns early; the steps of any
      climbing schedule and the marks left add up to the marks set; and once all workers have stopped the
      tree is exactly the update of the flat map, every node above a set leaf was rehashed once, after all
      such nodes below it. */
  lemma {:induction false} EveryInterleavingUpdates(job: Job, marking: seq<Path>, m: Marking, climbing: seq<Path>)
    requires ValidJob(job)
    requires MarkPossible(job, StartMarking(job), marking) && m == RunMarking(job, StartMarking(job), marking)
    requires m.done == job.items.Keys <= m.nodes.Keys
    requires Possible(StartClimb(m), job.t, climbing)
    ensures var c := RunSchedule(StartClimb(m), job.t, climbing);
            && |climbing| + |Debt(c.nodes)| == |Debt(m.nodes)|
            && (forall k :: k in c.workers ==> Attempt(c, job.t, k).Waits? || Attempt(c, job.t, k).Rehashed?)
            && (c.workers == map[] ==>
                  && SetsLeaves(job.before, c.nodes, job.t, job.items, job.version)
                  && RehashedInOrder(job, c.log))
  {
    EveryMarkingIsComplete(job, marking);
    AnyClimb(job, StartClimb(m), climbing);
  }

  lemma {:induction false} AnyClimb(job: Job, start: Climb, schedule: seq<Path>)
    requires Inv(job, start) && Possible(start, job.t, schedule)
    ensures var c := RunSchedule(start, job.t, schedule);
            && |schedule| + |Debt(c.nodes)| == |Debt(start.nodes)|
            && (forall k :: k in c.workers ==> Attempt(c, job.t, k).Waits? || Attempt(c, job.t, k).Rehashed?)
            && (c.workers == map[] ==>
                  && SetsLeaves(job.before, c.nodes, job.t, job.items, job.version)
                  && RehashedInOrder(job, c.log))
  {
    ScheduleKeepsInv(job, start, schedule);
    var c := RunSchedule(start, job.t, schedule);
    forall k | k in c.workers ensures Attempt(c, job.t, k).Waits? || Attempt(c, job.t, k).Rehashed? {
      AttemptSucceeds(job, c, k);
    }
    if c.workers == map[] {
      FinishedClimb(job, c);
    }
  }

  /** A sequence of states, each reached from the one before by setting one leaf at the same version. */
  ghost predicate SequentialSets(states: seq<Nodes>, order: seq<Path>, job: Job) {
    && |states| == |order| + 1
    && states[0] == job.before
    && (forall i :: 0 <= i < |order| ==> order[i] in job.items)
    && forall i :: 0 <= i < |order| ==>
         SetsLeaves(states[i], states[i + 1], Updated(job.t, Chosen(job.items, order[..i])),
                    map[order[i] := job.items[order[i]]], job.version)
  }

  function Chosen(items: map<Path, Digest>, order: seq<Path>): map<Path, Digest> {
    map k | k in order && k in items :: items[k]
  }

  lemma {:induction false} SequentialSetsAreOneUpdate(states: seq<Nodes>, order: seq<Path>, job: Job)
    requires ValidJob(job) && SequentialSets(states, order, job) && order != []
    ensures SetsLeaves(job.before, states[|order|], job.t, Chosen(job.items, order), job.version)
  {
    var last := |order| - 1;
    LastSet(states, order, job);
    ChosenNext(job, order);
    if last == 0 {
      NothingChosen(job, order);
      assert SetsLeaves(job.before, states[|order|], job.t, Chosen(job.items, order), job.version);
    } else {
      SequentialSetsPrefix(states, order, job);
      SequentialSetsAreOneUpdate(states[..|order|], order[..last], job);
      UpdatesCompose(job.before, states[last], states[last + 1], job.t, Chosen(job.items, order[..last]),
                     map[order[last] := job.items[order[last]]], job.version);
    }
  }

  lemma {:induction false} LastSet(states: seq<Nodes>, order: seq<Path>, job: Job)
    requires SequentialSets(states, order, job) && order != []
    ensures var last := |order| - 1;
            && order[last] in job.items
            && (last == 0 ==> states[last] == job.before)
            && SetsLeaves(states[last], states[last + 1], Updated(job.t, Chosen(job.items, order[..last])),
                          map[order[last] := job.items[order[last]]], job.version)
  {
  }

  lemma {:induction false} NothingChosen(job: Job, order: seq<Path>)
    ensures Updated(job.t, Chosen(job.items, order[..0])) == job.t
    ensures forall m: map<Path, Digest> :: Chosen(job.items, order[..0]) + m == m
  {
    assert Chosen(job.items, order[..0]) == map[];
    assert job.t.values + map[] == job.t.values;
  }

  lemma {:induction false} ChosenNext(job: Job, order: seq<Path>)
    requires order != [] && order[|order| - 1] in job.items
    ensures var last := |order| - 1;
            Chosen(job.items, order) == Chosen(job.items, order[..last]) + map[order[last] := job.items[order[last]]]
  {
  }

  lemma {:induction false} SequentialSetsPrefix(states: seq<Nodes>, order: seq<Path>, job: Job)
    requires SequentialSets(states, order, job) && order != []
    ensures SequentialSets(states[..|order|], order[..|order| - 1], job)
  {
    var s, o := states[..|order|], order[..|order| - 1];
    forall i | 0 <= i < |o|
      ensures SetsLeaves(s[i], s[i + 1], Updated(job.t, Chosen(job.items, o[..i])),
                         map[o[i] := job.items[o[i]]], job.version)
    {
      assert o[..i] == order[..i];
    }
  }

  /** Every interleaving ends in the very tree that sequential sets of the same items build, in any order. */
  lemma {:induction false} ParallelEqualsSequential(job: Job, after: Nodes, states: seq<Nodes>, order: seq<Path>)
    requires ValidJob(job) && SetsLeaves(job.before, after, job.t, job.items, job.version)
    requires SequentialSets(states, order, job) && (set k | k in order) == job.items.Keys && order != []
    ensures after == states[|order|]
  {
    SequentialSetsAreOneUpdate(states, order, job);
    assert forall k :: k in job.items ==> k in (set k | k in order);
    assert Chosen(job.items, order) == job.items;
    UpdateIsDetermined(job.before, after, states[|order|], job.t, job.items, job.version);
  }
}
