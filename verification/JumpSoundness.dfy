/** Soundness of the jump protocol: chains that pass the block checks rebuild one contiguous,
    root-linked execution from two interleaved sequences.
 */
module JumpSoundness {
  import opened Goldilocks
  import opened Jump
  import opened JumpRuns

  /** Merges two ascending lists by index. */
  function Merge(a: seq<Tx>, b: seq<Tx>): (m: seq<Tx>) {
    if a == [] then b
    else if b == [] then a
    else if a[|a| - 1].index > b[|b| - 1].index then Merge(a[..|a| - 1], b) + [a[|a| - 1]]
    else Merge(a, b[..|b| - 1]) + [b[|b| - 1]]
  }

  /** Consecutive indices from `base` on, each starting from the roots the previous one left. */
  predicate Links(m: seq<Tx>, base: int, start: Roots) {
    && (forall i :: 0 <= i < |m| ==> m[i].index == base + i)
    && (forall i {:trigger RootsBefore(m, i, start)} :: 0 <= i < |m| ==> m[i].before == RootsBefore(m, i, start))
  }

  /** The list executes the indices 0, 1, 2, ... in order, from the roots `start` to the roots `end`. */
  predicate Execution(m: seq<Tx>, start: Roots, end: Roots) {
    Links(m, 0, start) && end == LastRoots(m, start)
  }

  lemma {:induction false} MergeKeepsAll(a: seq<Tx>, b: seq<Tx>)
    ensures multiset(Merge(a, b)) == multiset(a) + multiset(b)
  {
    if a != [] && b != [] {
      var a', b' := a[..|a| - 1], b[..|b| - 1];
      assert a == a' + [a[|a| - 1]] && b == b' + [b[|b| - 1]];
      if a[|a| - 1].index > b[|b| - 1].index {
        MergeKeepsAll(a', b);
      } else {
        MergeKeepsAll(a, b');
      }
    }
  }

  /** Transactions behind everything in the other list end up at the end, whichever list they are in. */
  lemma {:induction false} MergeAppend(a: seq<Tx>, run: seq<Tx>, b: seq<Tx>)
    requires forall i :: 0 <= i < |run| ==> LastIndex(b) < run[i].index
    ensures Merge(a + run, b) == Merge(a, b) + run
    ensures Merge(b, a + run) == Merge(b, a) + run
  {
    if run == [] {
      assert a + run == a;
    } else {
      var last := |run| - 1;
      var front, tx := run[..last], run[last];
      MergeAppend(a, front, b);
      MergeOne(a + front, tx, b);
      Regroup(a, front, tx);
      Regroup(Merge(a, b), front, tx);
      Regroup(Merge(b, a), front, tx);
      assert run == front + [tx];
    }
  }

  lemma {:induction false} Regroup(a: seq<Tx>, front: seq<Tx>, tx: Tx)
    ensures a + (front + [tx]) == a + front + [tx]
  {
  }

  lemma {:induction false} MergeOne(a: seq<Tx>, tx: Tx, b: seq<Tx>)
    requires LastIndex(b) < tx.index
    ensures Merge(a + [tx], b) == Merge(a, b) + [tx]
    ensures Merge(b, a + [tx]) == Merge(b, a) + [tx]
  {
    assert (a + [tx])[..|a|] == a;
    if b == [] {
      assert Merge(a, b) == a == Merge(b, a);
    }
  }

  // The last run of a list

  lemma {:induction false} LinkedRunsPrefix(a: seq<Tx>, start: Roots, k: nat)
    requires k <= |a| && LinkedRuns(a, start)
    ensures LinkedRuns(a[..k], start)
  {
    assert forall i :: 0 <= i < k ==> (Follows(a[..k], i) <==> Follows(a, i));
  }

  lemma {:induction false} LastRunIndex(a: seq<Tx>, i: nat)
    requires a != [] && RunStart(a) <= i < |a|
    ensures a[i].index == a[RunStart(a)].index + (i - RunStart(a))
    ensures i > RunStart(a) ==> Follows(a, i)
  {
    var last := |a| - 1;
    if last > 0 && Follows(a, last) {
      LastRunIndex(a[..last], if i < last then i else last - 1);
    }
  }

  lemma {:induction false} ClosedCoverageIsCoverageBefore(a: seq<Tx>)
    requires a != [] && Ascending(a)
    ensures Ascending(a[..RunStart(a)])
    ensures ClosedCoverage(a) == Coverage(a[..RunStart(a)])
  {
    var last := |a| - 1;
    if last > 0 && Follows(a, last) {
      ClosedCoverageIsCoverageBefore(a[..last]);
      assert a[..last][..RunStart(a)] == a[..RunStart(a)];
    }
  }

  lemma {:induction false} OpenClaimsAreClaimsBefore(a: seq<Tx>, start: Roots)
    requires a != [] && Ascending(a)
    ensures Ascending(a[..RunStart(a)])
    ensures OpenClaims(a, start)
         == Claims(a[..RunStart(a)], start, a[RunStart(a)].index, a[RunStart(a)].before)
  {
    var last := |a| - 1;
    if last > 0 && Follows(a, last) {
      OpenClaimsAreClaimsBefore(a[..last], start);
      assert a[..last][..RunStart(a)] == a[..RunStart(a)];
    }
  }

  lemma {:induction false} OpenClaimsStayBelow(a: seq<Tx>, start: Roots)
    requires Ascending(a)
    ensures forall i :: 0 <= i < |OpenClaims(a, start)| ==> OpenClaims(a, start)[i].nextIndex <= LastIndex(a)
  {
    if a != [] {
      OpenClaimsStayBelow(a[..|a| - 1], start);
    }
  }

  /** Chain `e` is at the end of the block and both chains' records agree below `total`. */
  predicate Matched(e: seq<Tx>, o: seq<Tx>, start: Roots, total: Felt, end: Roots) {
    && Ascending(e) && Ascending(o) && LinkedRuns(e, start) && LinkedRuns(o, start)
    && LastIndex(e) + 1 == total && LastRoots(e, start) == end
    && Coverage(e) == Claims(o, start, total, end)
    && Coverage(o) == Claims(e, start, total, end)
  }

  /** Cutting off the last run of the chain at the end leaves the same situation with the roles swapped. */
  lemma {:induction false} PeelLastRun(e: seq<Tx>, o: seq<Tx>, start: Roots, total: Felt, end: Roots)
    requires Matched(e, o, start, total, end) && e != []
    ensures e[RunStart(e)].index == LastIndex(o) + 1 < total
    ensures Matched(o, e[..RunStart(e)], start, e[RunStart(e)].index, e[RunStart(e)].before)
  {
    var k := RunStart(e);
    LinkedRunsPrefix(e, start, k);
    ClosedCoverageIsCoverageBefore(e);
    OpenClaimsAreClaimsBefore(e, start);
    LastGapIsLastRun(e, o, start, total, end);
    assert Claims(e, start, total, end) == OpenClaims(e, start);
    assert Claims(o, start, e[k].index, e[k].before) == OpenClaims(o, start);
  }

  /** The core argument, from the end of the block backwards. */
  lemma {:induction false} Unwind(e: seq<Tx>, o: seq<Tx>, start: Roots, total: Felt, end: Roots)
    requires Matched(e, o, start, total, end)
    ensures Merge(e, o) == Merge(o, e)
    ensures Execution(Merge(e, o), start, end) && |Merge(e, o)| == total
    ensures total > 0 ==> LastIndex(o) + 1 < total
    decreases |e| + |o|
  {
    if e == [] {
      assert Coverage(o) == [];
      assert o == [];
    } else {
      var k := RunStart(e);
      var front, run := e[..k], e[k..];
      var cut, s: Felt := e[k].before, e[k].index;
      PeelLastRun(e, o, start, total, end);
      Unwind(o, front, start, s, cut);
      LastRunAppends(e, o, Merge(front, o), start, cut);
    }
  }

  lemma {:induction false} LastRunAppends(e: seq<Tx>, o: seq<Tx>, m: seq<Tx>, start: Roots, cut: Roots)
    requires e != [] && LinkedRuns(e, start)
    requires LastIndex(o) < e[RunStart(e)].index == |m| && cut == e[RunStart(e)].before
    requires m == Merge(e[..RunStart(e)], o) == Merge(o, e[..RunStart(e)]) && Execution(m, start, cut)
    ensures Merge(e, o) == Merge(o, e)
    ensures Execution(Merge(e, o), start, LastRoots(e, start)) && |Merge(e, o)| == LastIndex(e) + 1
  {
    var k := RunStart(e);
    LastRunSegment(e, start);
    LinksAppend(m, e[k..], 0, start);
    MergeAppend(e[..k], e[k..], o);
    SplitAt(e, k);
  }

  lemma {:induction false} SplitAt(e: seq<Tx>, k: nat)
    requires k <= |e|
    ensures e[..k] + e[k..] == e
  {
  }

  lemma {:induction false} LastRunSegment(e: seq<Tx>, start: Roots)
    requires e != [] && LinkedRuns(e, start)
    ensures var k := RunStart(e);
            && Links(e[k..], e[k].index, e[k].before)
            && LastRoots(e[k..], e[k].before) == LastRoots(e, start)
            && |e[k..]| == LastIndex(e) + 1 - e[k].index
  {
    LastRunLinks(e, start, RunStart(e), e[RunStart(e)..]);
    LastRunIndex(e, |e| - 1);
  }

  lemma {:induction false} LastRunLinks(e: seq<Tx>, start: Roots, k: nat, run: seq<Tx>)
    requires e != [] && LinkedRuns(e, start) && k == RunStart(e) && run == e[k..]
    ensures Links(run, e[k].index, e[k].before)
  {
    forall i | 0 <= i < |run|
      ensures run[i].index == e[k].index + i && run[i].before == RootsBefore(run, i, e[k].before)
    {
      LastRunElement(e, start, i);
    }
  }

  lemma {:induction false} LastRunElement(e: seq<Tx>, start: Roots, i: nat)
    requires e != [] && LinkedRuns(e, start) && i < |e| - RunStart(e)
    ensures var k := RunStart(e);
            && e[k + i].index == e[k].index + i
            && e[k + i].before == RootsBefore(e[k..], i, e[k].before)
  {
    var k := RunStart(e);
    LastRunIndex(e, k + i);
    if i > 0 {
      assert RootsBefore(e, k + i, start) == e[k..][i - 1].after;
    }
  }

  lemma {:induction false} LastGapIsLastRun(e: seq<Tx>, o: seq<Tx>, start: Roots, total: Felt, end: Roots)
    requires e != [] && Ascending(e) && Ascending(o)
    requires LastIndex(e) + 1 == total
    requires Coverage(e) == Claims(o, start, total, end)
    ensures LastIndex(o) + 1 == e[RunStart(e)].index < total
    ensures LastRoots(o, start) == e[RunStart(e)].before
    ensures OpenClaims(o, start) == ClosedCoverage(e)
  {
    RunStartBelowEnd(e);
    var record := RunRecord(e);
    assert Coverage(e)[|Coverage(e)| - 1] == record;
    if LastIndex(o) + 1 == total {
      OpenClaimsStayBelow(o, start);
      assert false;
    }
    var gap := GapRecord(o, total, start, end);
    var claims := Claims(o, start, total, end);
    assert claims == OpenClaims(o, start) + [gap];
    assert OpenClaims(o, start) == claims[..|claims| - 1];
    assert ClosedCoverage(e) == Coverage(e)[..|Coverage(e)| - 1];
  }

  lemma {:induction false} LinksAppend(m: seq<Tx>, run: seq<Tx>, base: int, start: Roots)
    requires Links(m, base, start)
    requires Links(run, base + |m|, LastRoots(m, start))
    ensures Links(m + run, base, start)
    ensures LastRoots(m + run, start) == LastRoots(run, LastRoots(m, start))
  {
    var n := m + run;
    forall i | 0 <= i < |n|
      ensures n[i].index == base + i && n[i].before == RootsBefore(n, i, start)
    {
      if i < |m| {
        assert RootsBefore(n, i, start) == RootsBefore(m, i, start);
      } else {
        assert n[i] == run[i - |m|];
        assert RootsBefore(n, i, start) == RootsBefore(run, i - |m|, LastRoots(m, start));
      }
    }
  }

  /** The active transactions a chain proof covers. */
  function Executed(p: ChainProof): seq<Tx> {
    Active(Transcript(p))
  }

  /** Jump soundness. When a verified light and a verified heavy chain start at the same roots and pass
      the jump checks, their active transactions merge into the indices 0 .. total - 1, each exactly once
      and each list in order; the roots link from the initial to the block's final ones; and when there is
      any active transaction exactly one chain is at the end. */
  lemma {:induction false} BlockIsOneExecution(light: ChainProof, heavy: ChainProof, start: Roots)
    requires ChainVerifies(light) && ChainVerifies(heavy)
    requires ChainOutput(light).value.initialRoots == start == ChainOutput(heavy).value.initialRoots
    requires |Executed(light)| < RANGE_32 && |Executed(heavy)| < RANGE_32
    requires JumpChecksAccept(ChainOutput(light).value, ChainOutput(heavy).value)
    ensures var l, h := ChainOutput(light).value, ChainOutput(heavy).value;
            var block := Merge(Executed(heavy), Executed(light));
            && Execution(block, start, BlockNewRoots(l, h))
            && multiset(block) == multiset(Executed(heavy)) + multiset(Executed(light))
            && TotalTxCount(l, h) == |block|
            && (block != [] ==> (AtEnd(h, |block|) <==> !AtEnd(l, |block|)))
            && (block != [] && AtEnd(h, |block|) ==> block[|block| - 1] in Executed(heavy))
            && (block != [] && AtEnd(l, |block|) ==> block[|block| - 1] in Executed(light))
  {
    var l, h := ChainOutput(light).value, ChainOutput(heavy).value;
    var la, ha := Executed(light), Executed(heavy);
    ChainIsOneFold(light);
    ChainIsOneFold(heavy);
    RunRepresents(start, Transcript(light));
    RunRepresents(start, Transcript(heavy));
    var total := TotalTxCount(l, h);
    var end := BlockNewRoots(l, h);
    FinalizeMeans(l.jump, la, start, total, end);
    FinalizeMeans(h.jump, ha, start, total, end);
    ChainDeterminesRecords(Coverage(ha), Claims(la, start, total, end));
    ChainDeterminesRecords(Coverage(la), Claims(ha, start, total, end));
    if AtEnd(h, total) {
      assert Matched(ha, la, start, total, end);
      Unwind(ha, la, start, total, end);
    } else {
      assert Matched(la, ha, start, total, end);
      Unwind(la, ha, start, total, end);
    }
    MergeKeepsAll(ha, la);
    assert total == |Merge(ha, la)|;
    EndingTx(ha, la);
  }

  /** The last transaction of a merge belongs to the list that reaches further. */
  lemma {:induction false} EndingTx(a: seq<Tx>, b: seq<Tx>)
    ensures LastIndex(a) > LastIndex(b) ==> Merge(a, b) != [] && Merge(a, b)[|Merge(a, b)| - 1] in a
    ensures LastIndex(a) < LastIndex(b) ==> Merge(a, b) != [] && Merge(a, b)[|Merge(a, b)| - 1] in b
  {
  }
}
