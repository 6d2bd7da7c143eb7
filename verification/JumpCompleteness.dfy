/** Completeness of the jump protocol: the chunks of a loaded block always pass it, as long as no chain
    skips more than 2^32 indices at once.
 */
module JumpCompleteness {
  import opened Options
  import opened Goldilocks
  import opened Jump
  import opened JumpRuns
  import opened JumpSoundness
  import opened BlockChunks

  // Proving a chain group by group

  /** The proofs a prover builds from the groups of one chain. */
  function HonestChain(groups: seq<seq<Tx>>, start: Roots): ChainProof
    requires 0 < |groups| < P
  {
    var last := |groups| - 1;
    var first := ChainWitness(start, Initial(start), start);
    if last == 0 then ChainProof(0, first, 0, None, groups[0])
    else
      var previous := HonestChain(groups[..last], start);
      var claimed := match ChainOutput(previous) case Some(w) => w case None => first;
      ChainProof(last, claimed, last - 1, Some(previous), groups[last])
  }

  lemma {:induction false} HonestChainVerifies(groups: seq<seq<Tx>>, start: Roots, size: nat)
    requires 0 < |groups| < P && size > 0
    requires forall i :: 0 <= i < |groups| ==> |groups[i]| == size
    requires Run(Initial(start), Flatten(groups)).Some?
    ensures var p := HonestChain(groups, start);
            && ChainVerifies(p)
            && Transcript(p) == Flatten(groups)
            && ChainOutput(p).value.initialRoots == start
  {
    var last := |groups| - 1;
    if last == 0 {
      assert groups[..0] == [];
      assert Flatten(groups) == groups[0];
    } else {
      PrefixRuns(Initial(start), Flatten(groups[..last]), groups[last]);
      HonestChainVerifies(groups[..last], start, size);
      var previous := HonestChain(groups[..last], start);
      ChainIsOneFold(previous);
      RunConcat(Initial(start), Flatten(groups[..last]), groups[last]);
    }
  }

  lemma {:induction false} PrefixRuns(jump: JumpState, a: seq<Tx>, b: seq<Tx>)
    requires Run(jump, a + b).Some?
    ensures Run(jump, a).Some?
  {
    if Run(jump, a).None? {
      assert (a + b)[..|a|] == a;
      RunFailsForGood(jump, a + b, |a|);
    }
  }

  // One chain

  /** No index distance between neighbours exceeds 2^32. */
  predicate GapsFit(a: seq<Tx>) {
    forall i {:trigger IndexBefore(a, i)} :: 0 <= i < |a| ==> a[i].index - IndexBefore(a, i) <= RANGE_32
  }

  predicate AllActive(txs: seq<Tx>) {
    forall i :: 0 <= i < |txs| ==> txs[i].txType != TX_TYPE_EMPTY
  }

  lemma {:induction false} GapsFitSnoc(a: seq<Tx>, tx: Tx)
    ensures GapsFit(a + [tx]) <==> GapsFit(a) && tx.index - LastIndex(a) <= RANGE_32
  {
    var b := a + [tx];
    assert forall i :: 0 <= i <= |a| ==> IndexBefore(b, i) == IndexBefore(a, i);
    assert IndexBefore(b, |a|) == LastIndex(a);
  }

  lemma {:induction false} AcceptsActiveIff(jump: JumpState, a: seq<Tx>, start: Roots, tx: Tx)
    requires Ascending(a) && Heads(jump, a, start)
    requires LastIndex(a) < tx.index < P - 1 && tx.txType != TX_TYPE_EMPTY
    requires Contiguous(a, tx) ==> tx.before == LastRoots(a, start)
    ensures StepAccepts(jump, tx) <==> tx.index - LastIndex(a) <= RANGE_32
  {
    JumpedMeans(jump, a, start, tx);
  }

  /** A linked ascending list is accepted exactly when its gaps fit 32 bits. */
  lemma {:induction false} OwnListRuns(start: Roots, own: seq<Tx>)
    requires Ascending(own) && LinkedRuns(own, start) && AllActive(own) && |own| < P
    ensures Run(Initial(start), own).Some? <==> GapsFit(own)
    ensures GapsFit(own) ==> Represents(Run(Initial(start), own).value, own, start)
  {
    if own != [] {
      var last := |own| - 1;
      OwnListLast(start, own);
      OwnListRuns(start, own[..last]);
      if GapsFit(own[..last]) {
        var jump := Run(Initial(start), own[..last]).value;
        AcceptsActiveIff(jump, own[..last], start, own[last]);
        ActiveExtends(jump, own[..last], start, own[last]);
      }
    }
  }

  lemma {:induction false} OwnListLast(start: Roots, own: seq<Tx>)
    requires own != [] && Ascending(own) && LinkedRuns(own, start)
    ensures var a, tx := own[..|own| - 1], own[|own| - 1];
            && own == a + [tx]
            && Ascending(a) && LinkedRuns(a, start) && LastIndex(a) < tx.index < P - 1
            && (Contiguous(a, tx) ==> tx.before == LastRoots(a, start))
            && (GapsFit(own) <==> GapsFit(a) && tx.index - LastIndex(a) <= RANGE_32)
  {
    var last := |own| - 1;
    var a, tx := own[..last], own[last];
    assert own == a + [tx];
    assert Contiguous(a, tx) ==> Follows(own, last) && tx.before == RootsBefore(own, last, start);
    LinkedRunsPrefix(own, start, last);
    GapsFitSnoc(a, tx);
  }

  lemma {:induction false} PadsKeepState(jump: JumpState, pad: Tx, count: nat)
    requires pad.txType == TX_TYPE_EMPTY && pad.index == jump.lastActiveTxIndex
    ensures Run(jump, Pads(pad, count)) == Some(jump)
  {
    if count > 0 {
      assert Pads(pad, count)[..count - 1] == Pads(pad, count - 1);
      PadsKeepState(jump, pad, count - 1);
      PaddingKeepsState(jump, pad);
    }
  }

  /** What one chain sees: its own transactions and then padding. */
  lemma {:induction false} FedListRuns(start: Roots, own: seq<Tx>, pad: Tx, count: nat)
    requires Ascending(own) && LinkedRuns(own, start) && AllActive(own) && |own| < P
    requires pad.txType == TX_TYPE_EMPTY && pad.index == Of(LastIndex(own))
    ensures Run(Initial(start), own + Pads(pad, count)).Some? <==> GapsFit(own)
    ensures GapsFit(own) ==> Represents(Run(Initial(start), own + Pads(pad, count)).value, own, start)
  {
    OwnListRuns(start, own);
    if GapsFit(own) {
      RunConcat(Initial(start), own, Pads(pad, count));
      PadsKeepState(Run(Initial(start), own).value, pad, count);
    } else if Run(Initial(start), own + Pads(pad, count)).Some? {
      PrefixRuns(Initial(start), own, Pads(pad, count));
      assert false;
    }
  }

  // Both chains

  /** The two lists partition the indices below `n`, and each one's runs are the other one's gaps. */
  predicate Dual(h: seq<Tx>, l: seq<Tx>, n: int, start: Roots, end: Roots) {
    && Ascending(h) && Ascending(l)
    && |h| + |l| == n < P
    && LastIndex(h) < n && LastIndex(l) < n
    && (if n == 0 then h == [] == l && end == start else LastIndex(h) == n - 1 <==> LastIndex(l) != n - 1)
    && (LastIndex(h) == n - 1 ==> LastRoots(h, start) == end)
    && (LastIndex(l) == n - 1 ==> LastRoots(l, start) == end)
    && Coverage(h) == Claims(l, start, n, end)
    && Coverage(l) == Claims(h, start, n, end)
  }

  lemma {:induction false} CoverageSnoc(a: seq<Tx>, tx: Tx)
    requires Ascending(a) && Ascending(a + [tx])
    ensures var record := RunRecord(a + [tx]);
            && record.nextIndex == tx.index + 1 && record.after == tx.after
            && (a == [] || !Contiguous(a, tx) ==>
                  && Coverage(a + [tx]) == Coverage(a) + [record]
                  && record.prevIndex == Of(tx.index - 1) && record.before == tx.before)
            && (a != [] && Contiguous(a, tx) ==>
                  && Coverage(a + [tx]) == ClosedCoverage(a) + [record]
                  && record.prevIndex == RunRecord(a).prevIndex && record.before == RunRecord(a).before)
  {
    RunStartSnoc(a, tx);
    ClosedCoverageSnoc(a, tx);
    if a != [] && Contiguous(a, tx) {
      assert (a + [tx])[RunStart(a)] == a[RunStart(a)];
    }
  }

  lemma {:induction false} DualExtends(h: seq<Tx>, l: seq<Tx>, n: int, start: Roots, end: Roots, tx: Tx)
    requires Dual(h, l, n, start, end) && n + 1 < P
    requires tx.index == n && tx.before == end
    ensures Dual(h + [tx], l, n + 1, start, tx.after)
  {
    AscendingSnoc(h, tx);
    if n > 0 && LastIndex(h) == n - 1 {
      RunGrows(h, l, n, start, end, tx);
    } else {
      RunOpens(h, l, n, start, tx);
    }
    DualClaimsExtend(h, l, n, start, end, tx);
  }

  lemma {:induction false} DualClaimsExtend(h: seq<Tx>, l: seq<Tx>, n: int, start: Roots, end: Roots, tx: Tx)
    requires Dual(h, l, n, start, end) && n + 1 < P
    requires tx.index == n && tx.before == end && Ascending(h + [tx])
    ensures Coverage(l) == Claims(h + [tx], start, n + 1, tx.after)
  {
    OpenClaimsSnoc(h, start, tx);
    var open := OpenClaims(h + [tx], start);
    assert open + [] == open;
    assert OpenClaims(h, start) + [] == OpenClaims(h, start);
  }

  /** The chain at the end goes on: its last run and the other chain's last gap grow together. */
  lemma {:induction false} RunGrows(h: seq<Tx>, l: seq<Tx>, n: int, start: Roots, end: Roots, tx: Tx)
    requires Ascending(h) && Ascending(l) && LastIndex(l) < n - 1 && LastIndex(h) == n - 1 && n + 1 < P
    requires Coverage(h) == Claims(l, start, n, end)
    requires h != [] && tx.index == n && Ascending(h + [tx])
    ensures Coverage(h + [tx]) == Claims(l, start, n + 1, tx.after)
  {
    LastRunFillsLastGap(h, OpenClaims(l, start), GapRecord(l, n, start, end));
    CoverageSnoc(h, tx);
  }

  /** The chains change over: a new run opens where the other chain stopped. */
  lemma {:induction false} RunOpens(h: seq<Tx>, l: seq<Tx>, n: int, start: Roots, tx: Tx)
    requires Ascending(h) && Ascending(l) && LastIndex(l) == n - 1 && n + 1 < P
    requires LastRoots(l, start) == tx.before && (h == [] || LastIndex(h) < n - 1)
    requires Coverage(h) == Claims(l, start, n, tx.before)
    requires tx.index == n && Ascending(h + [tx])
    ensures Coverage(h + [tx]) == Claims(l, start, n + 1, tx.after)
  {
    assert OpenClaims(l, start) + [] == OpenClaims(l, start);
    CoverageSnoc(h, tx);
  }

  lemma {:induction false} LastRunFillsLastGap(h: seq<Tx>, open: seq<Record>, gap: Record)
    requires h != [] && Ascending(h) && Coverage(h) == open + [gap]
    ensures ClosedCoverage(h) == open && RunRecord(h) == gap
  {
    assert open == Coverage(h)[..|open|];
    assert ClosedCoverage(h) == Coverage(h)[..|Coverage(h)| - 1];
    assert RunRecord(h) == Coverage(h)[|Coverage(h)| - 1];
  }

  /** Splitting a linked list of active transactions by type. */
  lemma {:induction false} SplitIsDual(active: seq<Tx>, start: Roots)
    requires Links(active, 0, start) && |active| < P - 1
    ensures Dual(OfType(active, false), OfType(active, true), |active|, start, LastRoots(active, start))
  {
    if active == [] {
      NothingIsDual(start);
    } else {
      var last := |active| - 1;
      var h, l := OfType(active[..last], false), OfType(active[..last], true);
      LinksLast(active, start);
      SplitIsDual(active[..last], start);
      SplitDualNext(h, l, last, start, active[last].before, active[last]);
      SplitLast(active);
    }
  }

  lemma {:induction false} SplitLast(active: seq<Tx>)
    requires active != []
    ensures var last := |active| - 1;
            var h, l := OfType(active[..last], false), OfType(active[..last], true);
            if IsLight(active[last]) then OfType(active, false) == h && OfType(active, true) == l + [active[last]]
            else OfType(active, false) == h + [active[last]] && OfType(active, true) == l
  {
    OfTypeNext(active, |active| - 1);
    assert active[..|active|] == active;
  }

  lemma {:induction false} LinksLast(active: seq<Tx>, start: Roots)
    requires Links(active, 0, start) && active != []
    ensures var last := |active| - 1;
            && Links(active[..last], 0, start)
            && active[last].index == last
            && active[last].before == LastRoots(active[..last], start)
            && active[last].after == LastRoots(active, start)
  {
    LinksPrefix(active, start, |active| - 1);
    assert active[|active| - 1].before == RootsBefore(active, |active| - 1, start);
  }

  lemma {:induction false} NothingIsDual(start: Roots)
    ensures Dual([], [], 0, start, start)
  {
  }

  lemma {:induction false} SplitDualNext(h: seq<Tx>, l: seq<Tx>, n: int, start: Roots, end: Roots, tx: Tx)
    requires Dual(h, l, n, start, end) && n + 1 < P
    requires tx.index == n && tx.before == end
    ensures IsLight(tx) ==> Dual(h, l + [tx], n + 1, start, tx.after)
    ensures !IsLight(tx) ==> Dual(h + [tx], l, n + 1, start, tx.after)
  {
    if IsLight(tx) {
      DualSwap(h, l, n, start, end);
      DualExtends(l, h, n, start, end, tx);
      DualSwap(l + [tx], h, n + 1, start, tx.after);
    } else {
      DualExtends(h, l, n, start, end, tx);
    }
  }

  lemma {:induction false} DualSwap(h: seq<Tx>, l: seq<Tx>, n: int, start: Roots, end: Roots)
    requires Dual(h, l, n, start, end)
    ensures Dual(l, h, n, start, end)
  {
  }

  lemma {:induction false} LinksPrefix(m: seq<Tx>, start: Roots, k: nat)
    requires Links(m, 0, start) && k <= |m|
    ensures Links(m[..k], 0, start)
  {
    assert forall i :: 0 <= i < k ==> RootsBefore(m[..k], i, start) == RootsBefore(m, i, start);
  }

  /** The transactions of one type keep their order, and runs of them stay root-linked. */
  lemma {:induction false} OwnListIsLinked(active: seq<Tx>, start: Roots, light: bool)
    requires Links(active, 0, start) && AllActive(active) && |active| < P - 1
    ensures var own := OfType(active, light);
            && Ascending(own) && LinkedRuns(own, start) && AllActive(own) && |own| <= |active|
            && LastIndex(own) < |active|
            && (LastIndex(own) == |active| - 1 ==> LastRoots(own, start) == LastRoots(active, start))
  {
    if active != [] {
      var last := |active| - 1;
      var front, tx := active[..last], active[last];
      LinksPrefix(active, start, last);
      OwnListIsLinked(front, start, light);
      var own := OfType(front, light);
      assert tx.before == RootsBefore(active, last, start) == LastRoots(front, start);
      if IsLight(tx) == light {
        AscendingSnoc(own, tx);
        LinkedRunsSnoc(own, start, tx);
      } else {
        assert own + [] == own;
      }
    }
  }

  /** A block whose witness lists linked active transactions and one empty one behind them. */
  predicate LinkedWitness(active: seq<Tx>, template: Tx, start: Roots) {
    && Links(active, 0, start) && AllActive(active) && |active| < P - 1
    && template.txType == TX_TYPE_EMPTY
    && template.after == LastRoots(active, start)
  }

  predicate BothGapsFit(active: seq<Tx>) {
    GapsFit(OfType(active, false)) && GapsFit(OfType(active, true))
  }

  /** A chain proof over exactly the groups it was fed. */
  predicate Proves(p: ChainProof, groups: seq<seq<Tx>>, start: Roots) {
    && ChainVerifies(p)
    && Transcript(p) == Flatten(groups)
    && ChainOutput(p).value.initialRoots == start
  }

  /** A chain over loaded groups runs exactly when its gaps fit. */
  lemma {:induction false} FedChainRuns(
    groups: seq<seq<Tx>>, active: seq<Tx>, template: Tx, start: Roots, light: bool, size: nat)
    requires LinkedWitness(active, template, start)
    requires Feeds(groups, OfType(active, light), template, light, size)
    ensures Run(Initial(start), Flatten(groups)).Some? <==> GapsFit(OfType(active, light))
    ensures GapsFit(OfType(active, light)) ==>
              Represents(Run(Initial(start), Flatten(groups)).value, OfType(active, light), start)
  {
    var own := OfType(active, light);
    var fed := Flatten(groups);
    OwnListIsLinked(active, start, light);
    var pad :| IsPadOf(pad, template, own, light) && fed == own + Pads(pad, |fed| - |own|);
    FedListRuns(start, own, pad, |fed| - |own|);
  }

  lemma {:induction false} LoadedChain(
    groups: seq<seq<Tx>>, active: seq<Tx>, template: Tx, start: Roots, light: bool, size: nat)
    requires LinkedWitness(active, template, start)
    requires Feeds(groups, OfType(active, light), template, light, size) && size > 0 && |groups| < P
    ensures GapsFit(OfType(active, light)) <==> exists p :: Proves(p, groups, start)
  {
    FedChainRuns(groups, active, template, start, light, size);
    if Run(Initial(start), Flatten(groups)).Some? {
      HonestChainVerifies(groups, start, size);
      assert Proves(HonestChain(groups, start), groups, start);
    }
    forall p | Proves(p, groups, start) ensures Run(Initial(start), Flatten(groups)).Some? {
      ChainIsOneFold(p);
    }
  }

  lemma {:induction false} FedListEnds(
    groups: seq<seq<Tx>>, active: seq<Tx>, template: Tx, start: Roots, light: bool, size: nat)
    requires LinkedWitness(active, template, start)
    requires Feeds(groups, OfType(active, light), template, light, size) && Flatten(groups) != []
    requires LastIndex(OfType(active, light)) == |active| - 1
    ensures Flatten(groups)[|Flatten(groups)| - 1].after == LastRoots(active, start)
         == LastRoots(OfType(active, light), start)
  {
    var own := OfType(active, light);
    var fed := Flatten(groups);
    OwnListIsLinked(active, start, light);
    var pad :| IsPadOf(pad, template, own, light) && fed == own + Pads(pad, |fed| - |own|);
    if |fed| > |own| {
      assert fed[|fed| - 1] == pad;
    } else {
      assert fed == own;
    }
  }

  lemma {:induction false} LoadedOutput(
    p: ChainProof, groups: seq<seq<Tx>>, active: seq<Tx>, template: Tx, start: Roots, light: bool, size: nat)
    requires LinkedWitness(active, template, start)
    requires Feeds(groups, OfType(active, light), template, light, size)
    requires Proves(p, groups, start)
    ensures var own := OfType(active, light);
            var w := ChainOutput(p).value;
            && Represents(w.jump, own, start)
            && (LastIndex(own) == |active| - 1 ==> w.newRoots == LastRoots(active, start) == w.jump.prevNew)
  {
    ChainIsOneFold(p);
    FedChainRuns(groups, active, template, start, light, size);
    if LastIndex(OfType(active, light)) == |active| - 1 {
      FedListEnds(groups, active, template, start, light, size);
    }
  }

  lemma {:induction false} DualPasses(
    l: ChainWitness, h: ChainWitness, la: seq<Tx>, ha: seq<Tx>, n: int, start: Roots, end: Roots)
    requires Dual(ha, la, n, start, end)
    requires Represents(l.jump, la, start) && Represents(h.jump, ha, start)
    requires LastIndex(la) == n - 1 ==> l.newRoots == end == l.jump.prevNew
    requires LastIndex(ha) == n - 1 ==> h.newRoots == end == h.jump.prevNew
    ensures JumpChecksAccept(l, h) && TotalTxCount(l, h) == n && BlockNewRoots(l, h) == end
  {
    FinalizeMeans(l.jump, la, start, n, end);
    FinalizeMeans(h.jump, ha, start, n, end);
  }

  /** Jump completeness. The chunks of a loaded, root-linked block can be proved and pass the jump checks
      exactly when no chain skips more than 2^32 indices at once; the block then exposes the number of its
      active transactions and their final roots, for every way of proving the chains. */
  lemma {:induction false} LoadedBlockIsAcceptedIff(
    chunks: seq<seq<Tx>>, active: seq<Tx>, template: Tx, start: Roots, txPerProof: nat, lightTxPerProof: nat)
    requires LinkedWitness(active, template, start)
    requires FeedsBoth(chunks, active, template, txPerProof, lightTxPerProof)
    requires txPerProof > 0 && lightTxPerProof > 0 && |chunks| < P
    ensures BothGapsFit(active) <==>
            exists l, h :: Proves(l, Groups(chunks, true), start) && Proves(h, Groups(chunks, false), start)
    ensures forall l, h :: Proves(l, Groups(chunks, true), start) && Proves(h, Groups(chunks, false), start) ==>
              && JumpChecksAccept(ChainOutput(l).value, ChainOutput(h).value)
              && TotalTxCount(ChainOutput(l).value, ChainOutput(h).value) == |active|
              && BlockNewRoots(ChainOutput(l).value, ChainOutput(h).value) == LastRoots(active, start)
  {
    var light, heavy := Groups(chunks, true), Groups(chunks, false);
    GroupsAreFewer(chunks, true);
    GroupsAreFewer(chunks, false);
    LoadedChain(light, active, template, start, true, lightTxPerProof);
    LoadedChain(heavy, active, template, start, false, txPerProof);
    forall l, h | Proves(l, light, start) && Proves(h, heavy, start)
      ensures JumpChecksAccept(ChainOutput(l).value, ChainOutput(h).value)
      ensures TotalTxCount(ChainOutput(l).value, ChainOutput(h).value) == |active|
      ensures BlockNewRoots(ChainOutput(l).value, ChainOutput(h).value) == LastRoots(active, start)
    {
      LoadedOutput(l, light, active, template, start, true, lightTxPerProof);
      LoadedOutput(h, heavy, active, template, start, false, txPerProof);
      SplitIsDual(active, start);
      DualPasses(ChainOutput(l).value, ChainOutput(h).value, OfType(active, true), OfType(active, false),
                 |active|, start, LastRoots(active, start));
    }
  }

  lemma {:induction false} GroupsAreFewer(chunks: seq<seq<Tx>>, light: bool)
    ensures |Groups(chunks, light)| <= |chunks|
  {
    if chunks != [] {
      GroupsAreFewer(chunks[..|chunks| - 1], light);
    }
  }

  /** A block of at most 2^32 active transactions always fits. */
  lemma {:induction false} ShortBlocksFit(active: seq<Tx>, start: Roots, light: bool)
    requires Links(active, 0, start) && AllActive(active) && |active| <= RANGE_32
    ensures GapsFit(OfType(active, light))
  {
    OwnListIsLinked(active, start, light);
    var own := OfType(active, light);
    forall i {:trigger IndexBefore(own, i)} | 0 <= i < |own| ensures own[i].index - IndexBefore(own, i) <= RANGE_32 {
      assert own[i].index <= LastIndex(own);
    }
  }

  /** The split by type loses nothing, and merging by index gives the block back. */
  lemma {:induction false} MergingTheSplitGivesTheBlock(active: seq<Tx>, start: Roots)
    requires Links(active, 0, start) && AllActive(active) && |active| < P - 1
    ensures Merge(OfType(active, false), OfType(active, true)) == active
  {
    if active != [] {
      var last := |active| - 1;
      var front, tx := active[..last], active[last];
      LinksPrefix(active, start, last);
      MergingTheSplitGivesTheBlock(front, start);
      OwnListIsLinked(front, start, true);
      OwnListIsLinked(front, start, false);
      assert active[..last + 1] == active == front + [tx];
      OfTypeNext(active, last);
      var light, heavy := OfType(front, true), OfType(front, false);
      if IsLight(tx) {
        assert OfType(active, true) == light + [tx] && OfType(active, false) == heavy;
        MergeOne(light, tx, heavy);
      } else {
        assert OfType(active, false) == heavy + [tx] && OfType(active, true) == light;
        MergeOne(heavy, tx, light);
      }
    }
  }
}
