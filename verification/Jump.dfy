/** The two-chain jump protocol. Transactions of one block are split by circuit type into a heavy and a
    light chain. Each chain folds a jump state over its transactions, and the block circuit compares the
    two closed states. Builder calls are read as the relation they constrain: an `Accepts` predicate holds
    exactly when all assertions of a builder function can be satisfied.
 */
module Jump {
  import opened Options
  import opened Goldilocks

  const TX_TYPE_EMPTY: nat := 0
  const TX_HEAVY: nat := 0
  const TX_LIGHT: nat := 1

  type Digest = int

  /** The state root and the delta root always travel together. */
  datatype Roots = Roots(state: Digest, delta: Digest)

  datatype Tx = Tx(index: Felt, txType: nat, circuitType: nat, before: Roots, after: Roots)

  /** The preimage of one coverage or claim record hash. */
  datatype Record = Record(prevIndex: Felt, nextIndex: Felt, before: Roots, after: Roots)

  /** Hash chains as free constructors: the all-zero hash, or the hash of a chain and a record hash. */
  datatype Chain = Zero | Fold(prefix: Chain, record: Record)

  datatype JumpState = JumpState(
    lastActiveTxIndex: Felt,
    prevNew: Roots,
    runStartPrevIndex: Felt,
    runStartOld: Roots,
    coverage: Chain,
    claims: Chain,
    txCount: Felt)

  function Initial(roots: Roots): JumpState {
    JumpState(NEG_ONE, roots, NEG_ONE, roots, Zero, Zero, 0)
  }

  // One transaction

  predicate IsPadding(jump: JumpState, tx: Tx) {
    tx.index == jump.lastActiveTxIndex
  }

  function GapMinusOne(jump: JumpState, tx: Tx): Felt {
    Sub(if IsPadding(jump, tx) then 1 else Sub(tx.index, jump.lastActiveTxIndex), 1)
  }

  predicate Jumped(jump: JumpState, tx: Tx) {
    !IsPadding(jump, tx) && GapMinusOne(jump, tx) != 0
  }

  predicate StepAccepts(jump: JumpState, tx: Tx) {
    && (tx.txType == TX_TYPE_EMPTY <==> IsPadding(jump, tx))
    && GapMinusOne(jump, tx) < RANGE_32
    && (!IsPadding(jump, tx) && GapMinusOne(jump, tx) == 0 ==> tx.before == jump.prevNew)
  }

  function CoverageRecord(jump: JumpState): Record {
    Record(jump.runStartPrevIndex, Add(jump.lastActiveTxIndex, 1), jump.runStartOld, jump.prevNew)
  }

  function Step(jump: JumpState, tx: Tx): JumpState {
    var isActive := !IsPadding(jump, tx);
    var jumped := Jumped(jump, tx);
    var runNonempty := jump.lastActiveTxIndex != jump.runStartPrevIndex;
    JumpState(
      if isActive then tx.index else jump.lastActiveTxIndex,
      if isActive then tx.after else jump.prevNew,
      if jumped then Sub(tx.index, 1) else jump.runStartPrevIndex,
      if jumped then tx.before else jump.runStartOld,
      if jumped && runNonempty then Fold(jump.coverage, CoverageRecord(jump)) else jump.coverage,
      if jumped
      then Fold(jump.claims, Record(jump.lastActiveTxIndex, tx.index, jump.prevNew, tx.before))
      else jump.claims,
      Add(jump.txCount, if isActive then 1 else 0))
  }

  // One group of transactions

  /** The jump state after a list of transactions, or None when some step is not satisfiable. */
  function Run(jump: JumpState, txs: seq<Tx>): Option<JumpState> {
    if txs == [] then Some(jump)
    else
      var last := |txs| - 1;
      match Run(jump, txs[..last])
      case None => None
      case Some(before) => if StepAccepts(before, txs[last]) then Some(Step(before, txs[last])) else None
  }

  method DefineTxLoop(oldJump: JumpState, txs: seq<Tx>) returns (newJump: Option<JumpState>)
    ensures newJump == Run(oldJump, txs)
  {
    var jump := oldJump;
    for i := 0 to |txs|
      invariant Run(oldJump, txs[..i]) == Some(jump)
    {
      assert txs[..i + 1][..i] == txs[..i];
      if !StepAccepts(jump, txs[i]) {
        RunFailsForGood(oldJump, txs, i + 1);
        return None;
      }
      jump := Step(jump, txs[i]);
    }
    assert txs[..|txs|] == txs;
    return Some(jump);
  }

  lemma {:induction false} RunFailsForGood(jump: JumpState, txs: seq<Tx>, n: nat)
    requires n <= |txs|
    requires Run(jump, txs[..n]) == None
    ensures Run(jump, txs) == None
  {
    if n == |txs| {
      assert txs[..n] == txs;
    } else {
      assert txs[..|txs| - 1][..n] == txs[..n];
      RunFailsForGood(jump, txs[..|txs| - 1], n);
    }
  }

  lemma {:induction false} RunConcat(jump: JumpState, a: seq<Tx>, b: seq<Tx>)
    requires Run(jump, a).Some?
    ensures Run(jump, a + b) == Run(Run(jump, a).value, b)
  {
    if b == [] {
      assert a + b == a;
    } else {
      RunConcat(jump, a, b[..|b| - 1]);
      assert (a + b)[..|a + b| - 1] == a + b[..|b| - 1];
    }
  }

  // The recursive chain of groups

  datatype ChainWitness = ChainWitness(newRoots: Roots, jump: JumpState, initialRoots: Roots)

  /** One recursion of the chain circuit: `claimed` and `claimedStep` are the public inputs read from the
      previous proof, which is verified only when `step` is not zero. */
  datatype ChainProof = ChainProof(
    step: Felt, claimed: ChainWitness, claimedStep: Felt, previous: Option<ChainProof>, group: seq<Tx>)

  predicate InitialAccepts(jump: JumpState, roots: Roots) {
    && Add(jump.lastActiveTxIndex, 1) == 0
    && Add(jump.runStartPrevIndex, 1) == 0
    && jump.prevNew == roots
    && jump.runStartOld == roots
    && jump.coverage == Zero
    && jump.claims == Zero
    && jump.txCount == 0
  }

  function ChainOutput(p: ChainProof): Option<ChainWitness> {
    if p.group == [] then None
    else
      match Run(p.claimed.jump, p.group)
      case None => None
      case Some(jump) => Some(ChainWitness(p.group[|p.group| - 1].after, jump, p.claimed.initialRoots))
  }

  predicate ChainVerifies(p: ChainProof) {
    && (p.step == 0 ==>
          && InitialAccepts(p.claimed.jump, p.claimed.newRoots)
          && p.claimed.initialRoots == p.claimed.newRoots)
    && (p.step != 0 ==>
          && p.previous.Some?
          && ChainVerifies(p.previous.value)
          && ChainOutput(p.previous.value) == Some(p.claimed)
          && p.previous.value.step == p.claimedStep
          && p.step == Add(p.claimedStep, 1))
    && ChainOutput(p).Some?
  }

  /** All transactions a chain proof speaks about, from recursion step zero on. */
  function Transcript(p: ChainProof): seq<Tx> {
    if p.step != 0 && p.previous.Some? then Transcript(p.previous.value) + p.group else p.group
  }

  /** A verified chain proof is one uninterrupted fold from the initial jump state: no step in the middle
      can restart the fold, whatever public inputs the prover supplies. */
  lemma {:induction false} ChainIsOneFold(p: ChainProof)
    requires ChainVerifies(p)
    ensures Transcript(p) != []
    ensures var w := ChainOutput(p).value;
            && Run(Initial(w.initialRoots), Transcript(p)) == Some(w.jump)
            && w.newRoots == Transcript(p)[|Transcript(p)| - 1].after
  {
    if p.step == 0 {
      assert p.claimed.jump == Initial(p.claimed.newRoots);
    } else {
      ChainIsOneFold(p.previous.value);
      RunConcat(Initial(p.claimed.initialRoots), Transcript(p.previous.value), p.group);
    }
  }

  // The block circuit

  function Finalize(jump: JumpState, total: Felt, newRoots: Roots): (closed: (Chain, Chain)) {
    var prevPlusOne := Add(jump.lastActiveTxIndex, 1);
    (if jump.lastActiveTxIndex != jump.runStartPrevIndex
     then Fold(jump.coverage, CoverageRecord(jump)) else jump.coverage,
     if prevPlusOne != total
     then Fold(jump.claims, Record(jump.lastActiveTxIndex, total, jump.prevNew, newRoots)) else jump.claims)
  }

  function TotalTxCount(light: ChainWitness, heavy: ChainWitness): Felt {
    Add(light.jump.txCount, heavy.jump.txCount)
  }

  predicate AtEnd(w: ChainWitness, total: Felt) {
    Add(w.jump.lastActiveTxIndex, 1) == total
  }

  /** The roots the block exposes: those of the heavy chain when it is at the end. */
  function BlockNewRoots(light: ChainWitness, heavy: ChainWitness): Roots {
    if AtEnd(heavy, TotalTxCount(light, heavy)) then heavy.newRoots else light.newRoots
  }

  predicate JumpChecksAccept(light: ChainWitness, heavy: ChainWitness) {
    var total := TotalTxCount(light, heavy);
    var newRoots := BlockNewRoots(light, heavy);
    var (heavyCoverage, heavyClaims) := Finalize(heavy.jump, total, newRoots);
    var (lightCoverage, lightClaims) := Finalize(light.jump, total, newRoots);
    && (AtEnd(heavy, total) || AtEnd(light, total))
    && newRoots == (if AtEnd(heavy, total) then heavy.jump.prevNew else light.jump.prevNew)
    && heavyCoverage == lightClaims
    && lightCoverage == heavyClaims
  }
}
