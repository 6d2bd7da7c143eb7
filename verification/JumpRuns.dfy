/** What a jump state means: the list of active transactions behind it, cut into maximal runs of
    consecutive indices.
 */
module JumpRuns {
  import opened Goldilocks
  import opened Jump

  /** The active transactions of a list, in order. */
  function Active(txs: seq<Tx>): (r: seq<Tx>) {
    if txs == [] then []
    else
      var last := |txs| - 1;
      Active(txs[..last]) + (if txs[last].txType == TX_TYPE_EMPTY then [] else [txs[last]])
  }

  /** Index and roots a transaction at position `i` finds. */
  function IndexBefore(a: seq<Tx>, i: nat): int
    requires i <= |a|
  {
    if i == 0 then -1 else a[i - 1].index
  }

  function RootsBefore(a: seq<Tx>, i: nat, start: Roots): Roots
    requires i <= |a|
  {
    if i == 0 then start else a[i - 1].after
  }

  function LastIndex(a: seq<Tx>): int {
    IndexBefore(a, |a|)
  }

  function LastRoots(a: seq<Tx>, start: Roots): Roots {
    RootsBefore(a, |a|, start)
  }

  /** Indices strictly increase and stay clear of the sentinel. */
  predicate Ascending(a: seq<Tx>) {
    && (forall i :: 0 <= i < |a| ==> a[i].index < P - 1)
    && (forall i, j :: 0 <= i < j < |a| ==> a[i].index < a[j].index)
  }

  predicate Follows(a: seq<Tx>, i: nat)
    requires i < |a|
  {
    a[i].index == IndexBefore(a, i) + 1
  }

  /** A transaction whose index follows on directly also starts from the roots its predecessor left. */
  predicate LinkedRuns(a: seq<Tx>, start: Roots) {
    forall i {:trigger Follows(a, i)} :: 0 <= i < |a| && Follows(a, i) ==> a[i].before == RootsBefore(a, i, start)
  }

  /** Position at which the last run of consecutive indices starts. */
  function RunStart(a: seq<Tx>): (k: nat)
    requires a != []
    ensures k < |a|
  {
    var last := |a| - 1;
    if last > 0 && Follows(a, last) then RunStart(a[..last]) else last
  }

  function RunRecord(a: seq<Tx>): Record
    requires a != [] && Ascending(a)
  {
    var k := RunStart(a);
    Record(Of(a[k].index - 1), LastIndex(a) + 1, a[k].before, a[|a| - 1].after)
  }

  /** Records of all runs but the last, still open, one. */
  function ClosedCoverage(a: seq<Tx>): seq<Record>
    requires Ascending(a)
  {
    if |a| <= 1 then []
    else
      var last := |a| - 1;
      ClosedCoverage(a[..last]) + (if Follows(a, last) then [] else [RunRecord(a[..last])])
  }

  function Coverage(a: seq<Tx>): seq<Record>
    requires Ascending(a)
  {
    if a == [] then [] else ClosedCoverage(a) + [RunRecord(a)]
  }

  function GapRecord(a: seq<Tx>, next: Felt, start: Roots, before: Roots): Record
    requires Ascending(a)
  {
    Record(Of(LastIndex(a)), next, LastRoots(a, start), before)
  }

  /** Records of all gaps in front of a transaction of the list. */
  function OpenClaims(a: seq<Tx>, start: Roots): seq<Record>
    requires Ascending(a)
  {
    if a == [] then []
    else
      var last := |a| - 1;
      OpenClaims(a[..last], start)
      + (if Follows(a, last) then [] else [GapRecord(a[..last], a[last].index, start, a[last].before)])
  }

  /** All gaps below `total`, including the one behind the last transaction. */
  function Claims(a: seq<Tx>, start: Roots, total: Felt, end: Roots): seq<Record>
    requires Ascending(a)
  {
    OpenClaims(a, start) + (if LastIndex(a) + 1 == total then [] else [GapRecord(a, total, start, end)])
  }

  function ToChain(records: seq<Record>): Chain {
    if records == [] then Zero
    else Fold(ToChain(records[..|records| - 1]), records[|records| - 1])
  }

  /** A hash chain determines its list of records. */
  lemma {:induction false} ChainDeterminesRecords(a: seq<Record>, b: seq<Record>)
    requires ToChain(a) == ToChain(b)
    ensures a == b
  {
    if a != [] && b != [] {
      ChainDeterminesRecords(a[..|a| - 1], b[..|b| - 1]);
      assert a == a[..|a| - 1] + [a[|a| - 1]];
      assert b == b[..|b| - 1] + [b[|b| - 1]];
    }
  }

  lemma {:induction false} ToChainAppend(records: seq<Record>, record: Record)
    ensures ToChain(records + [record]) == Fold(ToChain(records), record)
  {
    assert (records + [record])[..|records|] == records;
  }

  predicate Heads(jump: JumpState, a: seq<Tx>, start: Roots)
    requires Ascending(a)
  {
    && jump.lastActiveTxIndex == Of(LastIndex(a))
    && jump.prevNew == LastRoots(a, start)
    && jump.txCount == |a|
  }

  predicate OpenRun(jump: JumpState, a: seq<Tx>, start: Roots)
    requires Ascending(a)
  {
    if a == [] then jump.runStartPrevIndex == NEG_ONE && jump.runStartOld == start
    else
      var first := a[RunStart(a)];
      jump.runStartPrevIndex == Of(first.index - 1) && jump.runStartOld == first.before
  }

  predicate Hashes(jump: JumpState, a: seq<Tx>, start: Roots)
    requires Ascending(a)
  {
    && jump.coverage == ToChain(ClosedCoverage(a))
    && jump.claims == ToChain(OpenClaims(a, start))
  }

  /** The jump state `jump` of a chain that started at `start` stands for the active transactions `a`. */
  predicate Represents(jump: JumpState, a: seq<Tx>, start: Roots) {
    && Ascending(a)
    && LinkedRuns(a, start)
    && Heads(jump, a, start)
    && OpenRun(jump, a, start)
    && Hashes(jump, a, start)
  }

  lemma {:induction false} RunStartBelowEnd(a: seq<Tx>)
    requires a != [] && Ascending(a)
    ensures a[RunStart(a)].index <= LastIndex(a)
  {
    var last := |a| - 1;
    if last > 0 && Follows(a, last) {
      RunStartBelowEnd(a[..last]);
    }
  }

  /** A padding transaction leaves a jump state alone. */
  lemma {:induction false} PaddingKeepsState(jump: JumpState, tx: Tx)
    requires IsPadding(jump, tx)
    ensures Step(jump, tx) == jump
  {
  }

  predicate Contiguous(a: seq<Tx>, tx: Tx) {
    tx.index == LastIndex(a) + 1
  }

  // The list functions on one more transaction

  lemma {:induction false} AscendingSnoc(a: seq<Tx>, tx: Tx)
    requires Ascending(a) && LastIndex(a) < tx.index < P - 1
    ensures Ascending(a + [tx])
  {
  }

  lemma {:induction false} LinkedRunsSnoc(a: seq<Tx>, start: Roots, tx: Tx)
    requires LinkedRuns(a, start)
    requires Contiguous(a, tx) ==> tx.before == LastRoots(a, start)
    ensures LinkedRuns(a + [tx], start)
  {
    assert forall i :: 0 <= i < |a| ==> (Follows(a + [tx], i) <==> Follows(a, i));
  }

  lemma {:induction false} RunStartSnoc(a: seq<Tx>, tx: Tx)
    ensures RunStart(a + [tx]) == if a != [] && Contiguous(a, tx) then RunStart(a) else |a|
  {
    assert (a + [tx])[..|a|] == a;
  }

  lemma {:induction false} ClosedCoverageSnoc(a: seq<Tx>, tx: Tx)
    requires Ascending(a) && Ascending(a + [tx])
    ensures ClosedCoverage(a + [tx])
         == if a == [] || Contiguous(a, tx) then ClosedCoverage(a) else ClosedCoverage(a) + [RunRecord(a)]
  {
    assert (a + [tx])[..|a|] == a;
    assert ClosedCoverage(a) + [] == ClosedCoverage(a);
  }

  lemma {:induction false} OpenClaimsSnoc(a: seq<Tx>, start: Roots, tx: Tx)
    requires Ascending(a) && Ascending(a + [tx])
    ensures OpenClaims(a + [tx], start)
         == if Contiguous(a, tx) then OpenClaims(a, start)
            else OpenClaims(a, start) + [GapRecord(a, tx.index, start, tx.before)]
  {
    assert (a + [tx])[..|a|] == a;
    assert OpenClaims(a, start) + [] == OpenClaims(a, start);
  }

  /** An active transaction whose index did not wrap extends the list the state stands for. */
  lemma {:induction false} ActiveExtends(jump: JumpState, a: seq<Tx>, start: Roots, tx: Tx)
    requires Represents(jump, a, start)
    requires LastIndex(a) < tx.index < P - 1 && |a| + 1 < P
    requires Contiguous(a, tx) ==> tx.before == jump.prevNew
    ensures Represents(Step(jump, tx), a + [tx], start)
  {
    LinkedRunsSnoc(a, start, tx);
    StepHeads(jump, a, start, tx);
    StepOpenRun(jump, a, start, tx);
    StepHashes(jump, a, start, tx);
  }

  lemma {:induction false} JumpedMeans(jump: JumpState, a: seq<Tx>, start: Roots, tx: Tx)
    requires Ascending(a) && Heads(jump, a, start)
    requires LastIndex(a) < tx.index < P - 1
    ensures !IsPadding(jump, tx)
    ensures GapMinusOne(jump, tx) == tx.index - LastIndex(a) - 1
  {
  }

  lemma {:induction false} StepHeads(jump: JumpState, a: seq<Tx>, start: Roots, tx: Tx)
    requires Ascending(a) && Heads(jump, a, start)
    requires LastIndex(a) < tx.index < P - 1 && |a| + 1 < P
    ensures Ascending(a + [tx])
    ensures Heads(Step(jump, tx), a + [tx], start)
  {
    AscendingSnoc(a, tx);
  }

  lemma {:induction false} StepOpenRun(jump: JumpState, a: seq<Tx>, start: Roots, tx: Tx)
    requires Ascending(a) && Heads(jump, a, start) && OpenRun(jump, a, start)
    requires LastIndex(a) < tx.index < P - 1
    requires Contiguous(a, tx) ==> tx.before == jump.prevNew
    ensures Ascending(a + [tx])
    ensures OpenRun(Step(jump, tx), a + [tx], start)
  {
    AscendingSnoc(a, tx);
    JumpedMeans(jump, a, start, tx);
    RunStartSnoc(a, tx);
    if a != [] && Contiguous(a, tx) {
      assert (a + [tx])[RunStart(a)] == a[RunStart(a)];
    }
  }

  lemma {:induction false} CoverageRecordMeans(jump: JumpState, a: seq<Tx>, start: Roots)
    requires Ascending(a) && Heads(jump, a, start) && OpenRun(jump, a, start)
    ensures Add(jump.lastActiveTxIndex, 1) == LastIndex(a) + 1
    ensures jump.lastActiveTxIndex != jump.runStartPrevIndex <==> a != []
    ensures a != [] ==> CoverageRecord(jump) == RunRecord(a)
  {
    if a != [] {
      RunStartBelowEnd(a);
    }
  }

  lemma {:induction false} StepHashes(jump: JumpState, a: seq<Tx>, start: Roots, tx: Tx)
    requires Represents(jump, a, start)
    requires LastIndex(a) < tx.index < P - 1
    ensures Ascending(a + [tx])
    ensures Hashes(Step(jump, tx), a + [tx], start)
  {
    AscendingSnoc(a, tx);
    ClosedCoverageSnoc(a, tx);
    OpenClaimsSnoc(a, start, tx);
    JumpedMeans(jump, a, start, tx);
    CoverageRecordMeans(jump, a, start);
    if a != [] {
      ToChainAppend(ClosedCoverage(a), RunRecord(a));
    }
    ToChainAppend(OpenClaims(a, start), GapRecord(a, tx.index, start, tx.before));
  }

  /** Closing a jump state yields the chains of all runs and of all gaps below the total. */
  lemma {:induction false} FinalizeMeans(jump: JumpState, a: seq<Tx>, start: Roots, total: Felt, end: Roots)
    requires Represents(jump, a, start)
    ensures Finalize(jump, total, end) == (ToChain(Coverage(a)), ToChain(Claims(a, start, total, end)))
    ensures Add(jump.lastActiveTxIndex, 1) == LastIndex(a) + 1
  {
    CoverageRecordMeans(jump, a, start);
    if a != [] {
      ToChainAppend(ClosedCoverage(a), RunRecord(a));
    }
    if LastIndex(a) + 1 != total {
      ToChainAppend(OpenClaims(a, start), GapRecord(a, total, start, end));
    } else {
      assert OpenClaims(a, start) + [] == OpenClaims(a, start);
    }
  }

  lemma {:induction false} AcceptedIndexDoesNotWrap(jump: JumpState, a: seq<Tx>, start: Roots, tx: Tx)
    requires Ascending(a) && Heads(jump, a, start)
    requires StepAccepts(jump, tx) && tx.txType != TX_TYPE_EMPTY
    requires LastIndex(a) + RANGE_32 < P - 1
    ensures LastIndex(a) < tx.index <= LastIndex(a) + RANGE_32
    ensures Contiguous(a, tx) ==> tx.before == jump.prevNew
  {
  }

  /** With fewer than 2^32 active steps the field index of a chain never wraps: every state reached from
      the initial one stands for the active transactions of the list. */
  lemma {:induction false} RunRepresents(start: Roots, txs: seq<Tx>)
    requires Run(Initial(start), txs).Some?
    requires |Active(txs)| < RANGE_32
    ensures Represents(Run(Initial(start), txs).value, Active(txs), start)
    ensures LastIndex(Active(txs)) < |Active(txs)| * RANGE_32
  {
    if txs != [] {
      var last := |txs| - 1;
      var tx := txs[last];
      var jump := Run(Initial(start), txs[..last]).value;
      var a := Active(txs[..last]);
      assert Active(txs) == a + (if tx.txType == TX_TYPE_EMPTY then [] else [tx]);
      RunRepresents(start, txs[..last]);
      assert Run(Initial(start), txs).value == Step(jump, tx);
      if tx.txType == TX_TYPE_EMPTY {
        PaddingKeepsState(jump, tx);
        assert Active(txs) == a;
      } else {
        AcceptedIndexDoesNotWrap(jump, a, start, tx);
        ActiveExtends(jump, a, start, tx);
      }
    }
  }
}
