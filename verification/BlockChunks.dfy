/** Loading a block: active transactions are numbered, and those of each circuit type are grouped and
    padded for the two chains.
 */
module BlockChunks {
  import opened Options
  import opened Numbers
  import opened Goldilocks
  import opened Jump
  import opened JumpRuns

  datatype LoadError = NoTrailingPadding | PaddingInside

  datatype LoadResult = Loaded(chunks: seq<seq<Tx>>) | Failed(error: LoadError)

  predicate IsLight(tx: Tx) {
    tx.circuitType == TX_LIGHT
  }

  /** The transactions of one circuit type, in order. */
  function OfType(txs: seq<Tx>, light: bool): seq<Tx> {
    if txs == [] then []
    else
      var last := |txs| - 1;
      OfType(txs[..last], light) + (if IsLight(txs[last]) == light then [txs[last]] else [])
  }

  /** The groups that feed one chain, in order. */
  function Groups(chunks: seq<seq<Tx>>, light: bool): seq<seq<Tx>> {
    if chunks == [] then []
    else
      var last := chunks[|chunks| - 1];
      Groups(chunks[..|chunks| - 1], light) + (if last != [] && IsLight(last[0]) == light then [last] else [])
  }

  function Flatten(groups: seq<seq<Tx>>): seq<Tx> {
    if groups == [] then [] else Flatten(groups[..|groups| - 1]) + groups[|groups| - 1]
  }

  function Pads(pad: Tx, count: nat): (pads: seq<Tx>)
    ensures |pads| == count
  {
    seq(count, _ => pad)
  }

  /** Length of the block without its trailing empty transactions. */
  function ActiveLength(txs: seq<Tx>): (n: nat)
    ensures n <= |txs|
  {
    if txs != [] && txs[|txs| - 1].txType == TX_TYPE_EMPTY then ActiveLength(txs[..|txs| - 1]) else |txs|
  }

  /** The padding of one chain repeats the index of that chain's last active transaction. */
  predicate IsPadOf(pad: Tx, template: Tx, own: seq<Tx>, light: bool) {
    && -1 <= LastIndex(own) < P - 1
    && pad == template.(circuitType := if light then TX_LIGHT else TX_HEAVY, index := Of(LastIndex(own)))
  }

  /** What one chain receives: whole groups of the right size which, laid end to end, are the active
      transactions of the type in order, followed by padding only. */
  ghost predicate Feeds(groups: seq<seq<Tx>>, own: seq<Tx>, template: Tx, light: bool, size: nat) {
    var fed := Flatten(groups);
    && groups != []
    && WholeGroups(groups, size)
    && |own| <= |fed|
    && exists pad :: IsPadOf(pad, template, own, light) && fed == own + Pads(pad, |fed| - |own|)
  }

  predicate WholeGroups(groups: seq<seq<Tx>>, size: nat) {
    && (forall i :: 0 <= i < |groups| ==> |groups[i]| == size)
    && |Flatten(groups)| == |groups| * size
  }

  /** No more padding than a last group needs. */
  predicate TightlyPadded(groups: seq<seq<Tx>>, own: seq<Tx>, size: nat) {
    |Flatten(groups)| < |own| + size || (own == [] && |groups| == 1)
  }

  predicate Homogeneous(chunk: seq<Tx>, light: bool) {
    chunk != [] && forall i :: 0 <= i < |chunk| ==> IsLight(chunk[i]) == light
  }

  /** Every chunk belongs to exactly one chain as a whole. */
  predicate Sorted(chunks: seq<seq<Tx>>) {
    forall i :: 0 <= i < |chunks| ==> Homogeneous(chunks[i], true) || Homogeneous(chunks[i], false)
  }

  /** The chunks of a block feed both chains. */
  ghost predicate FeedsBoth(chunks: seq<seq<Tx>>, active: seq<Tx>, template: Tx, txPerProof: nat, lightTxPerProof: nat)
  {
    && Sorted(chunks)
    && Feeds(Groups(chunks, false), OfType(active, false), template, false, txPerProof)
    && Feeds(Groups(chunks, true), OfType(active, true), template, true, lightTxPerProof)
  }

  lemma {:induction false} GroupsAppend(chunks: seq<seq<Tx>>, chunk: seq<Tx>, light: bool)
    requires Homogeneous(chunk, light)
    ensures Groups(chunks + [chunk], light) == Groups(chunks, light) + [chunk]
    ensures Groups(chunks + [chunk], !light) == Groups(chunks, !light)
  {
    assert (chunks + [chunk])[..|chunks|] == chunks;
  }

  lemma {:induction false} FlattenAppend(groups: seq<seq<Tx>>, group: seq<Tx>)
    ensures Flatten(groups + [group]) == Flatten(groups) + group
  {
    assert (groups + [group])[..|groups|] == groups;
  }

  lemma {:induction false} OfTypeAppend(txs: seq<Tx>, tx: Tx, light: bool)
    ensures OfType(txs + [tx], light) == OfType(txs, light) + (if IsLight(tx) == light then [tx] else [])
  {
    assert (txs + [tx])[..|txs|] == txs;
  }

  lemma {:induction false} WholeGroupsAppend(groups: seq<seq<Tx>>, group: seq<Tx>, size: nat)
    requires WholeGroups(groups, size) && |group| == size
    ensures WholeGroups(groups + [group], size)
    ensures Flatten(groups + [group]) == Flatten(groups) + group
  {
    FlattenAppend(groups, group);
    assert (|groups| + 1) * size == |groups| * size + size;
  }

  /** The state of one buffer while the transactions are distributed. */
  predicate Buffered(groups: seq<seq<Tx>>, buf: seq<Tx>, own: seq<Tx>, light: bool, size: nat) {
    && WholeGroups(groups, size)
    && Flatten(groups) + buf == own
    && |buf| < size
    && forall i :: 0 <= i < |buf| ==> IsLight(buf[i]) == light
  }

  /** A full buffer becomes a group. */
  lemma {:induction false} BufferTakes(
    chunks: seq<seq<Tx>>, buf: seq<Tx>, own: seq<Tx>, tx: Tx, light: bool, size: nat)
    requires Buffered(Groups(chunks, light), buf, own, light, size) && IsLight(tx) == light
    ensures |buf| + 1 < size ==> Buffered(Groups(chunks, light), buf + [tx], own + [tx], light, size)
    ensures |buf| + 1 == size ==>
              && Buffered(Groups(chunks + [buf + [tx]], light), [], own + [tx], light, size)
              && Groups(chunks + [buf + [tx]], !light) == Groups(chunks, !light)
              && Homogeneous(buf + [tx], light)
  {
    var groups := Groups(chunks, light);
    assert Flatten(groups) + (buf + [tx]) == own + [tx];
    if |buf| + 1 == size {
      GroupsAppend(chunks, buf + [tx], light);
      WholeGroupsAppend(groups, buf + [tx], size);
      assert Flatten(groups + [buf + [tx]]) + [] == own + [tx];
    }
  }

  /** Pads one buffer to a full group, or adds a group of padding when the type has no transactions. */
  method CloseBuffer(
    chunks: seq<seq<Tx>>, buf: seq<Tx>, light: bool, hasTxs: bool, lastIndex: Felt, template: Tx, size: nat,
    ghost own: seq<Tx>)
    returns (closed: seq<seq<Tx>>)
    requires Buffered(Groups(chunks, light), buf, own, light, size) && Sorted(chunks)
    requires hasTxs <==> own != []
    requires -1 <= LastIndex(own) < P - 1 && lastIndex == Of(LastIndex(own))
    ensures Sorted(closed)
    ensures Feeds(Groups(closed, light), own, template, light, size)
    ensures TightlyPadded(Groups(closed, light), own, size)
    ensures Groups(closed, !light) == Groups(chunks, !light)
  {
    var pad := template.(circuitType := if light then TX_LIGHT else TX_HEAVY, index := lastIndex);
    if buf == [] && hasTxs {
      FullGroups(Groups(chunks, light), pad, template, light, size, own);
      return chunks;
    }
    var group := FillUp(buf, pad, size);
    PaddedGroup(Groups(chunks, light), buf, group, pad, template, light, size, own);
    closed := AddGroup(chunks, group, light);
  }

  method AddGroup(chunks: seq<seq<Tx>>, group: seq<Tx>, light: bool) returns (longer: seq<seq<Tx>>)
    requires Sorted(chunks) && Homogeneous(group, light)
    ensures Sorted(longer) && longer == chunks + [group]
    ensures Groups(longer, light) == Groups(chunks, light) + [group]
    ensures Groups(longer, !light) == Groups(chunks, !light)
  {
    GroupsAppend(chunks, group, light);
    longer := chunks + [group];
  }

  method FillUp(buf: seq<Tx>, pad: Tx, size: nat) returns (group: seq<Tx>)
    requires |buf| < size
    ensures |group| == size && group == buf + Pads(pad, size - |buf|)
    ensures (forall i :: 0 <= i < |buf| ==> IsLight(buf[i]) == IsLight(pad)) ==> Homogeneous(group, IsLight(pad))
  {
    group := buf;
    while |group| < size
      invariant |buf| <= |group| <= size
      invariant group == buf + Pads(pad, |group| - |buf|)
    {
      group := group + [pad];
    }
  }

  lemma {:induction false} FullGroups(
    groups: seq<seq<Tx>>, pad: Tx, template: Tx, light: bool, size: nat, own: seq<Tx>)
    requires Buffered(groups, [], own, light, size) && own != [] && IsPadOf(pad, template, own, light)
    ensures Feeds(groups, own, template, light, size)
    ensures TightlyPadded(groups, own, size)
  {
    assert Flatten(groups) + [] == Flatten(groups) == own;
    assert own + Pads(pad, 0) == own;
  }

  /** The group that closes a chain. */
  lemma {:induction false} PaddedGroup(
    groups: seq<seq<Tx>>, buf: seq<Tx>, group: seq<Tx>, pad: Tx, template: Tx, light: bool, size: nat, own: seq<Tx>)
    requires Buffered(groups, buf, own, light, size) && (buf == [] ==> own == [])
    requires IsPadOf(pad, template, own, light) && |group| == size && group == buf + Pads(pad, size - |buf|)
    ensures Feeds(groups + [group], own, template, light, size)
    ensures TightlyPadded(groups + [group], own, size)
  {
    WholeGroupsAppend(groups, group, size);
    assert Flatten(groups) + group == own + Pads(pad, |group| - |buf|);
    if own == [] {
      GroupsOfNothing(groups, size);
    }
  }

  lemma {:induction false} GroupsOfNothing(groups: seq<seq<Tx>>, size: nat)
    requires Flatten(groups) == [] && size > 0
    requires forall i :: 0 <= i < |groups| ==> |groups[i]| == size
    ensures groups == []
  {
    if groups != [] {
      assert false;
    }
  }

  /** Distributes the numbered active transactions over both chains. */
  method ChunkTxs(
    txs: seq<Tx>, template: Tx, lastHeavyIndex: Felt, lastLightIndex: Felt, txPerProof: nat, lightTxPerProof: nat)
    returns (chunks: seq<seq<Tx>>)
    requires txPerProof > 0 && lightTxPerProof > 0
    requires forall light :: -1 <= LastIndex(OfType(txs, light)) < P - 1
    requires lastHeavyIndex == Of(LastIndex(OfType(txs, false)))
    requires lastLightIndex == Of(LastIndex(OfType(txs, true)))
    ensures FeedsBoth(chunks, txs, template, txPerProof, lightTxPerProof)
    ensures TightlyPadded(Groups(chunks, false), OfType(txs, false), txPerProof)
    ensures TightlyPadded(Groups(chunks, true), OfType(txs, true), lightTxPerProof)
  {
    chunks := [];
    var heavyBuf, lightBuf := [], [];
    var hasHeavy, hasLight := false, false;
    for i := 0 to |txs|
      invariant Sorted(chunks)
      invariant Buffered(Groups(chunks, false), heavyBuf, OfType(txs[..i], false), false, txPerProof)
      invariant Buffered(Groups(chunks, true), lightBuf, OfType(txs[..i], true), true, lightTxPerProof)
      invariant hasHeavy <==> OfType(txs[..i], false) != []
      invariant hasLight <==> OfType(txs[..i], true) != []
    {
      OfTypeNext(txs, i);
      if IsLight(txs[i]) {
        hasLight := true;
        chunks, lightBuf := Push(chunks, lightBuf, txs[i], lightTxPerProof, OfType(txs[..i], true));
      } else {
        hasHeavy := true;
        chunks, heavyBuf := Push(chunks, heavyBuf, txs[i], txPerProof, OfType(txs[..i], false));
      }
    }
    assert txs[..|txs|] == txs;
    chunks := CloseBuffer(chunks, heavyBuf, false, hasHeavy, lastHeavyIndex, template, txPerProof,
                          OfType(txs, false));
    chunks := CloseBuffer(chunks, lightBuf, true, hasLight, lastLightIndex, template, lightTxPerProof,
                          OfType(txs, true));
  }

  lemma {:induction false} OfTypeNext(txs: seq<Tx>, i: nat)
    requires i < |txs|
    ensures OfType(txs[..i + 1], IsLight(txs[i])) == OfType(txs[..i], IsLight(txs[i])) + [txs[i]]
    ensures OfType(txs[..i + 1], !IsLight(txs[i])) == OfType(txs[..i], !IsLight(txs[i]))
  {
    assert txs[..i + 1] == txs[..i] + [txs[i]];
    OfTypeAppend(txs[..i], txs[i], IsLight(txs[i]));
    OfTypeAppend(txs[..i], txs[i], !IsLight(txs[i]));
  }

  /** Buffers one transaction and emits the group as soon as it is full. */
  method Push(chunks: seq<seq<Tx>>, buf: seq<Tx>, tx: Tx, size: nat, ghost own: seq<Tx>)
    returns (emitted: seq<seq<Tx>>, left: seq<Tx>)
    requires Sorted(chunks) && Buffered(Groups(chunks, IsLight(tx)), buf, own, IsLight(tx), size)
    ensures Sorted(emitted) && Buffered(Groups(emitted, IsLight(tx)), left, own + [tx], IsLight(tx), size)
    ensures Groups(emitted, !IsLight(tx)) == Groups(chunks, !IsLight(tx))
  {
    BufferTakes(chunks, buf, own, tx, IsLight(tx), size);
    emitted, left := chunks, buf + [tx];
    if |left| == size {
      emitted, left := emitted + [left], [];
    }
  }

  /** A block of nothing but padding: full groups of padding for both chains. */
  method EmptyTxChunks(
    template: Tx, heavyCount: nat, lightCount: nat, lastHeavyIndex: Felt, lastLightIndex: Felt,
    txPerProof: nat, lightTxPerProof: nat)
    returns (chunks: seq<seq<Tx>>)
    requires txPerProof > 0 && lightTxPerProof > 0
    requires lastHeavyIndex == NEG_ONE == lastLightIndex
    ensures FeedsBoth(chunks, [], template, txPerProof, lightTxPerProof)
    ensures FewestGroups(|Groups(chunks, false)|, heavyCount, txPerProof)
    ensures FewestGroups(|Groups(chunks, true)|, lightCount, lightTxPerProof)
  {
    var heavyGroups, lightGroups := GroupsFor(heavyCount, txPerProof), GroupsFor(lightCount, lightTxPerProof);
    var heavy := PadGroups([], template.(circuitType := TX_HEAVY, index := lastHeavyIndex), false, txPerProof,
                           heavyGroups, template);
    chunks := PadGroups(heavy, template.(circuitType := TX_LIGHT, index := lastLightIndex), true, lightTxPerProof,
                        lightGroups, template);
  }

  /** As few groups of `size` as hold `count` transactions, but at least one. */
  predicate FewestGroups(groups: nat, count: nat, size: nat) {
    groups > 0 && groups * size >= count && (groups == 1 || (groups - 1) * size < count)
  }

  function GroupsFor(count: nat, size: nat): (groups: nat)
    requires size > 0
    ensures FewestGroups(groups, count, size)
  {
    CeilDivIsLeast(count, size, CeilDiv(count, size));
    CeilDivIsLeast(count, size, CeilDiv(count, size) - 1);
    if CeilDiv(count, size) < 1 then 1 else CeilDiv(count, size)
  }

  method PadGroups(chunks: seq<seq<Tx>>, pad: Tx, light: bool, size: nat, count: nat, ghost template: Tx)
    returns (padded: seq<seq<Tx>>)
    requires size > 0 && count > 0 && Sorted(chunks) && Groups(chunks, light) == []
    requires IsPadOf(pad, template, [], light)
    ensures Sorted(padded)
    ensures Feeds(Groups(padded, light), [], template, light, size) && |Groups(padded, light)| == count
    ensures Groups(padded, !light) == Groups(chunks, !light)
  {
    padded := chunks;
    for i := 0 to count
      invariant Sorted(padded)
      invariant WholeGroups(Groups(padded, light), size) && |Groups(padded, light)| == i
      invariant forall k :: 0 <= k < |Flatten(Groups(padded, light))| ==> Flatten(Groups(padded, light))[k] == pad
      invariant Groups(padded, !light) == Groups(chunks, !light)
    {
      GroupsAppend(padded, Pads(pad, size), light);
      WholeGroupsAppend(Groups(padded, light), Pads(pad, size), size);
      padded := padded + [Pads(pad, size)];
    }
    ghost var fed := Flatten(Groups(padded, light));
    assert fed == [] + Pads(pad, |fed|);
  }

  /** The active transactions a witness holds, numbered in execution order. */
  function ActiveNumbered(txs: seq<Tx>): (active: seq<Tx>)
    requires |txs| < P
    ensures |active| == ActiveLength(txs)
    ensures forall i :: 0 <= i < |active| ==> active[i] == txs[i].(index := i)
  {
    seq(ActiveLength(txs), i requires 0 <= i < ActiveLength(txs) => txs[i].(index := i))
  }

  /** Sets the trailing empty transactions aside; the first of them becomes the padding template. */
  method SplitTemplate(raw: seq<Tx>) returns (n: nat, template: Option<Tx>)
    ensures n == ActiveLength(raw)
    ensures template == if n == |raw| then None else Some(raw[n])
  {
    n, template := |raw|, None;
    assert raw[..n] == raw;
    while n > 0 && raw[n - 1].txType == TX_TYPE_EMPTY
      invariant n <= |raw|
      invariant ActiveLength(raw[..n]) == ActiveLength(raw)
      invariant template == if n == |raw| then None else Some(raw[n])
    {
      assert raw[..n][..n - 1] == raw[..n - 1];
      n, template := n - 1, Some(raw[n - 1]);
    }
  }

  lemma {:induction false} LastIndexOfTypeAppend(txs: seq<Tx>, tx: Tx, light: bool)
    ensures LastIndex(OfType(txs + [tx], light))
         == if IsLight(tx) == light then tx.index else LastIndex(OfType(txs, light))
  {
    OfTypeAppend(txs, tx, light);
  }

  /** Numbers the active transactions and remembers the last index of either type. */
  method Number(raw: seq<Tx>) returns (active: seq<Tx>, lastHeavy: Felt, lastLight: Felt)
    requires |raw| < P - 1
    ensures |active| == |raw| && forall k :: 0 <= k < |raw| ==> active[k] == raw[k].(index := k)
    ensures -1 <= LastIndex(OfType(active, false)) < |raw| && -1 <= LastIndex(OfType(active, true)) < |raw|
    ensures lastHeavy == Of(LastIndex(OfType(active, false)))
    ensures lastLight == Of(LastIndex(OfType(active, true)))
  {
    active, lastHeavy, lastLight := [], NEG_ONE, NEG_ONE;
    for i := 0 to |raw|
      invariant |active| == i && forall k :: 0 <= k < i ==> active[k] == raw[k].(index := k)
      invariant -1 <= LastIndex(OfType(active, false)) < i && -1 <= LastIndex(OfType(active, true)) < i
      invariant lastHeavy == Of(LastIndex(OfType(active, false)))
      invariant lastLight == Of(LastIndex(OfType(active, true)))
    {
      var tx := raw[i].(index := i);
      LastIndexOfTypeAppend(active, tx, true);
      LastIndexOfTypeAppend(active, tx, false);
      if tx.circuitType == TX_LIGHT {
        lastLight := i;
      } else {
        lastHeavy := i;
      }
      active := active + [tx];
    }
  }

  /** Loading succeeds exactly when the witness is a list without empty transactions followed by at least
      one of them, and then its chunks feed both chains. */
  method FromJson(
    raw: seq<Tx>, txPerProof: nat, lightTxPerProof: nat, heavyEmptyTxCount: nat, lightEmptyTxCount: nat)
    returns (result: LoadResult)
    requires txPerProof > 0 && lightTxPerProof > 0 && |raw| < P - 1
    ensures var n := ActiveLength(raw);
            match result
            case Failed(NoTrailingPadding) => n == |raw|
            case Failed(PaddingInside) => n < |raw| && exists i :: 0 <= i < n && raw[i].txType == TX_TYPE_EMPTY
            case Loaded(chunks) =>
              && n < |raw|
              && (forall i :: 0 <= i < n ==> raw[i].txType != TX_TYPE_EMPTY)
              && FeedsBoth(chunks, ActiveNumbered(raw), raw[n], txPerProof, lightTxPerProof)
              && (if n == 0 then
                    && FewestGroups(|Groups(chunks, false)|, heavyEmptyTxCount, txPerProof)
                    && FewestGroups(|Groups(chunks, true)|, lightEmptyTxCount, lightTxPerProof)
                  else
                    && TightlyPadded(Groups(chunks, false), OfType(ActiveNumbered(raw), false), txPerProof)
                    && TightlyPadded(Groups(chunks, true), OfType(ActiveNumbered(raw), true), lightTxPerProof))
  {
    var n, template := SplitTemplate(raw);
    if template == None { return Failed(NoTrailingPadding); }
    if exists i :: 0 <= i < n && raw[i].txType == TX_TYPE_EMPTY { return Failed(PaddingInside); }
    var active, lastHeavy, lastLight := Number(raw[..n]);
    assert active == ActiveNumbered(raw);
    var chunks;
    if active == [] {
      chunks := EmptyTxChunks(template.value, heavyEmptyTxCount, lightEmptyTxCount, lastHeavy, lastLight,
                              txPerProof, lightTxPerProof);
    } else {
      chunks := ChunkTxs(active, template.value, lastHeavy, lastLight, txPerProof, lightTxPerProof);
    }
    return Loaded(chunks);
  }
}
