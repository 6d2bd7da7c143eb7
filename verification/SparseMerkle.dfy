/** The sparse Merkle tree of the exit witness tool. */
module SparseMerkle {
  import opened Options
  import opened Shifts
  import opened SparseTree
  import opened ParallelClimb
  import opened ParallelMark
  import opened SequentialSet
  import opened MerkleOpenings

  datatype Error =
    | ErrEmptyRoot | ErrInvalidKey | ErrInvalidVersion | ErrVersionTooLow | ErrDuplicateKey

  datatype Result<+T> = Ok(value: T) | Err(error: Error)

  datatype Item = Item(key: nat, value: Digest)

  /** The leaves that a list of items sets. */
  function ItemMap(items: seq<Item>, depth: nat): (m: map<Path, Digest>)
    ensures LeafKeys(m.Keys, depth)
  {
    if items == [] then map[]
    else
      var last := items[|items| - 1];
      ItemMap(items[..|items| - 1], depth)[KeyPath(last.key, depth) := last.value]
  }

  predicate GoodItem(items: seq<Item>, i: nat, depth: nat)
    requires i < |items|
  {
    items[i].key < ShiftLeft(1, depth) && forall j :: 0 <= j < i ==> items[j].key != items[i].key
  }

  /** `key` shifted right by a number of bits. */
  function ShiftRight(key: nat, bits: nat): nat {
    if bits == 0 then key else ShiftRight(key, bits - 1) / 2
  }

  /** The bits of `key` down to `depth`, as an index. */
  function Shifted(key: nat, maxDepth: nat, depth: nat): nat
    requires depth <= maxDepth
  {
    ShiftRight(key, maxDepth - depth)
  }

  function KeyBit(key: nat, maxDepth: nat, depth: nat): bool
    requires depth < maxDepth
  {
    Shifted(key, maxDepth, depth + 1) % 2 == 1
  }

  /** The node a key reaches at some depth. */
  function KeyNode(key: nat, maxDepth: nat, depth: nat): (p: Path)
    requires depth <= maxDepth
    ensures Depth(p) == depth
  {
    KeyPath(Shifted(key, maxDepth, depth), depth)
  }

  lemma {:induction false} KeyNodeNext(key: nat, maxDepth: nat, depth: nat)
    requires depth < maxDepth
    ensures KeyNode(key, maxDepth, depth + 1)
         == Child(KeyNode(key, maxDepth, depth), KeyBit(key, maxDepth, depth))
  {
  }

  lemma {:induction false} NilAboveMeansNil(t: Flat, k: Path, p: Path)
    requires Depth(k) == t.maxDepth && Below(k, p) && Depth(p) <= t.maxDepth && !HasLeaves(t, p)
    ensures ValueAt(t, k) == t.nilLeaf
    decreases t.maxDepth - Depth(p)
  {
    if k != p {
      BelowDepth(k, p);
      var c := Toward(k, p);
      assert c == Child(p, c.right);
      BelowDepth(k, c);
      NilAboveMeansNil(t, k, c);
    }
  }

  function Reversed<T>(s: seq<T>): (r: seq<T>) {
    if s == [] then [] else [s[|s| - 1]] + Reversed(s[..|s| - 1])
  }

  lemma {:induction false} ReversedAppend<T>(s: seq<T>, x: T)
    ensures Reversed(s + [x]) == [x] + Reversed(s)
  {
    assert (s + [x])[..|s|] == s;
  }

  // Workers do not depend on leaf values

  predicate SameShape(t: Flat, u: Flat) {
    t.nilLeaf == u.nilLeaf && t.maxDepth == u.maxDepth
  }

  lemma {:induction false} StepIgnoresValues(c: Climb, t: Flat, u: Flat, k: Path)
    requires SameShape(t, u) && k in c.workers
    ensures Step(c, t, k) == Step(c, u, k)
  {
  }

  predicate SameWork(a: Job, b: Job) {
    SameShape(a.t, b.t) && a.items == b.items && a.version == b.version
  }

  /** Worker steps still to be taken in the first phase. */
  function Remaining(m: Marking): set<(Path, int)> {
    set k, d: int | k in m.at && Depth(m.at[k]) <= d <= Depth(k) && Owes(m, k, d) :: (k, d)
  }

  function Left(m: Marking): nat {
    |Remaining(m)|
  }

  lemma {:induction false} MarkStepProgresses(job: Job, m: Marking, k: Path)
    requires Moves(job, m, k)
    ensures |Remaining(MarkStep(job, m, k))| < |Remaining(m)|
  {
    var next := MarkStep(job, m, k);
    var paid := (k, Depth(m.at[k]));
    BelowDepth(k, m.at[k]);
    forall j, d: int ensures (j, d) in Remaining(next) <==> (j, d) in Remaining(m) && (j, d) != paid {
      StepPaysItsDepth(job, m, k, j, d);
    }
    assert paid in Remaining(m);
    assert Remaining(next) == Remaining(m) - {paid};
  }

  predicate Owes(m: Marking, k: Path, d: int) {
    k in m.at && k !in m.done && Depth(m.at[k]) <= d <= Depth(k)
  }

  lemma {:induction false} StepPaysItsDepth(job: Job, m: Marking, k: Path, j: Path, d: int)
    requires Moves(job, m, k)
    ensures Owes(MarkStep(job, m, k), j, d) <==> Owes(m, j, d) && (j != k || d != Depth(m.at[k]))
  {
    BelowDepth(k, m.at[k]);
  }

  lemma {:induction false} MarkStepIgnoresValues(work: Job, job: Job, m: Marking, k: Path)
    requires SameWork(work, job) && Moves(job, m, k)
    ensures Moves(work, m, k) && MarkStep(work, m, k) == MarkStep(job, m, k)
  {
  }

  lemma {:induction false} MarkerStep(work: Job, job: Job, m: Marking, k: Path)
    requires SameWork(work, job) && MarkInv(job, m) && k in m.at && k !in m.done
    ensures Moves(work, m, k) && MarkInv(job, MarkStep(work, m, k))
    ensures Left(MarkStep(work, m, k)) < Left(m)
  {
    WorkerMoves(job, m, k);
    MarkStepProgresses(job, m, k);
    MarkStepKeepsInv(job, m, k);
    MarkStepIgnoresValues(work, job, m, k);
  }

  /** Runs the workers of the first phase in an arbitrary order, to the end unless interrupted. */
  method RunMarkers(work: Job, ghost job: Job, interrupted: bool) returns (m: Marking)
    requires SameWork(work, job) && ValidJob(job) && work.before == job.before
    ensures MarkInv(job, m)
    ensures !interrupted ==> m.done == job.items.Keys
  {
    StartKeepsInv(job);
    m := StartMarking(work);
    while m.at.Keys - m.done != {}
      invariant MarkInv(job, m)
      decreases Left(m)
    {
      if interrupted {
        var stop: bool := *;
        if stop { return; }
      }
      var k :| k in m.at.Keys - m.done;
      MarkerStep(work, job, m, k);
      m := MarkStep(work, m, k);
    }
    AllDone(job, m);
  }

  lemma {:induction false} AllDone(job: Job, m: Marking)
    requires Walkers(job, m) && m.at.Keys - m.done == {}
    ensures m.done == job.items.Keys
  {
    assert forall k :: k in m.at.Keys ==> k !in m.at.Keys - m.done;
  }

  /** Runs the workers of the second phase in an arbitrary order. */
  method RunClimbers(start: Climb, t: Flat, ghost job: Job) returns (nodes: Nodes)
    requires SameShape(t, job.t) && Inv(job, start)
    ensures SetsLeaves(job.before, nodes, job.t, job.items, job.version)
  {
    var c := start;
    while c.workers.Keys != {}
      invariant Inv(job, c)
      decreases |Debt(c.nodes)|
    {
      var k :| k in c.workers.Keys;
      StepIgnoresValues(c, t, job.t, k);
      StepPaysOne(job, c, k);
      c := Step(c, t, k);
    }
    FinishedClimb(job, c);
    nodes := c.nodes;
  }

  /** Runs both phases to the end. */
  method RunWorkers(before: Nodes, shape: Flat, items: map<Path, Digest>, version: nat, ghost t: Flat)
    returns (nodes: Nodes)
    requires Settled(before, t) && SameShape(shape, t) && LeafKeys(items.Keys, t.maxDepth)
    ensures SetsLeaves(before, nodes, t, items, version)
  {
    ghost var job := Job(before, t, items, version);
    var m := RunMarkers(Job(before, shape, items, version), job, false);
    MarkedTreeCanClimb(job, m);
    nodes := RunClimbers(StartClimb(m), shape, job);
  }

  /** Extends the nodes on the way to a key, from the root down. */
  method ExtendTo(before: Nodes, shape: Flat, key: nat, ghost job: Job) returns (nodes: Nodes, target: Path)
    requires ValidJob(job) && before == job.before && SameShape(shape, job.t)
    ensures target == KeyPath(key, shape.maxDepth) && Extended(job, nodes, target)
  {
    nodes, target := before, Root;
    for depth := 0 to shape.maxDepth
      invariant target == KeyNode(key, shape.maxDepth, depth)
      invariant nodes == ExtendedDown(before, shape, key, depth)
    {
      KeyNodeNext(key, shape.maxDepth, depth);
      target := Child(target, KeyBit(key, shape.maxDepth, depth));
      nodes := ExtendNode(nodes, shape, target);
    }
    KeyEnds(key, shape.maxDepth);
    DownIsExtended(job, shape, key, shape.maxDepth);
  }

  /** The tree extended down to a depth on the way to a key. */
  function ExtendedDown(before: Nodes, shape: Flat, key: nat, depth: nat): Nodes
    requires depth <= shape.maxDepth
  {
    if depth == 0 then before
    else ExtendNode(ExtendedDown(before, shape, key, depth - 1), shape, KeyNode(key, shape.maxDepth, depth))
  }

  lemma {:induction false} DownIsExtended(job: Job, shape: Flat, key: nat, depth: nat)
    requires ValidJob(job) && SameShape(shape, job.t) && depth <= shape.maxDepth
    ensures Extended(job, ExtendedDown(job.before, shape, key, depth), KeyNode(key, shape.maxDepth, depth))
  {
    if depth == 0 {
      KeyEnds(key, shape.maxDepth);
      ExtendedAtRoot(job);
    } else {
      DownIsExtended(job, shape, key, depth - 1);
      ExtendsTowardsKey(job, ExtendedDown(job.before, shape, key, depth - 1), shape, key, depth - 1);
    }
  }

  lemma {:induction false} ExtendsTowardsKey(job: Job, nodes: Nodes, shape: Flat, key: nat, depth: nat)
    requires SameShape(shape, job.t) && depth < shape.maxDepth
    requires Extended(job, nodes, KeyNode(key, shape.maxDepth, depth))
    ensures var next := KeyNode(key, shape.maxDepth, depth + 1);
            && next == Child(KeyNode(key, shape.maxDepth, depth), KeyBit(key, shape.maxDepth, depth))
            && Extended(job, ExtendNode(nodes, shape, next), next)
  {
    KeyNodeNext(key, shape.maxDepth, depth);
    var next := KeyNode(key, shape.maxDepth, depth + 1);
    ExtendsOneLevel(job, nodes, next);
    ExtendIgnoresValues(nodes, shape, job.t, next);
  }

  lemma {:induction false} ExtendIgnoresValues(nodes: Nodes, t: Flat, u: Flat, c: Path)
    requires SameShape(t, u) && Depth(c) <= t.maxDepth
    ensures ExtendNode(nodes, t, c) == ExtendNode(nodes, u, c)
  {
  }

  /** Rehashes the ancestors of a leaf, from the leaf up. */
  method RehashUp(start: Nodes, shape: Flat, leaf: Path, version: nat, ghost job: Job) returns (nodes: Nodes)
    requires ValidJob(job) && SameShape(shape, job.t) && version == job.version
    requires leaf in job.items.Keys && RehashedUpTo(job, start, leaf)
    ensures SetsLeaves(job.before, nodes, job.t, job.items, job.version)
  {
    nodes := start;
    var target := leaf;
    while target.Child?
      invariant Below(leaf, target) && RehashedUpTo(job, nodes, target)
      decreases Depth(target)
    {
      RehashesOneLevel(job, nodes, target);
      BelowTransitive(leaf, target, target.parent);
      RehashIgnoresValues(nodes, shape, job.t, target.parent, version);
      nodes := Rehash(nodes, shape, target.parent, version);
      target := target.parent;
    }
    RootIsReached(job, nodes);
  }

  /** Extends the tree down to one leaf, sets it and rehashes up to the root. */
  method SetOne(before: Nodes, shape: Flat, key: nat, val: Digest, version: nat, ghost job: Job)
    returns (nodes: Nodes)
    requires ValidJob(job) && before == job.before && SameShape(shape, job.t) && version == job.version
    requires job.items == map[KeyPath(key, shape.maxDepth) := val]
    ensures SetsLeaves(job.before, nodes, job.t, job.items, job.version)
  {
    var target;
    nodes, target := ExtendTo(before, shape, key, job);
    LeafIsSet(job, nodes, target);
    nodes := nodes[target := SetLeaf(shape, nodes[target], val, version)];
    nodes := RehashUp(nodes, shape, target, version, job);
  }

  lemma {:induction false} RehashIgnoresValues(nodes: Nodes, t: Flat, u: Flat, p: Path, version: nat)
    requires SameShape(t, u) && p in nodes && Depth(p) < t.maxDepth
    ensures Rehash(nodes, t, p, version) == Rehash(nodes, u, p, version)
  {
  }

  /** Accepts items up to the first one with an invalid or repeated key. */
  method CheckItems(items: seq<Item>, maxDepth: nat) returns (accepted: map<Path, Digest>, bad: nat)
    ensures bad <= |items| && accepted == ItemMap(items[..bad], maxDepth)
    ensures forall j :: 0 <= j < bad ==> GoodItem(items, j, maxDepth)
    ensures bad < |items| ==> !GoodItem(items, bad, maxDepth)
  {
    accepted := map[];
    var keys: set<nat> := {};
    for i := 0 to |items|
      invariant accepted == ItemMap(items[..i], maxDepth)
      invariant keys == set j | 0 <= j < i :: items[j].key
      invariant forall j :: 0 <= j < i ==> GoodItem(items, j, maxDepth)
    {
      if items[i].key >= ShiftLeft(1, maxDepth) || items[i].key in keys {
        return accepted, i;
      }
      assert items[..i + 1][..i] == items[..i];
      accepted := accepted[KeyPath(items[i].key, maxDepth) := items[i].value];
      keys := keys + {items[i].key};
    }
    bad := |items|;
  }

  /** The proof for an empty tree: nil hashes from the leaf level up. */
  method NilProof(shape: Flat, key: nat, ghost t: Flat) returns (proofs: seq<Digest>)
    requires SameShape(shape, t) && !HasLeaves(t, Root)
    ensures proofs == Siblings(t, KeyPath(key, t.maxDepth))
  {
    proofs := [];
    ghost var q := KeyPath(key, t.maxDepth);
    var i := shape.maxDepth;
    while i > 0
      invariant 0 <= i <= t.maxDepth && Depth(q) == i
      invariant proofs + Siblings(t, q) == Siblings(t, KeyPath(key, t.maxDepth))
    {
      EmptyEverywhere(t, Child(q.parent, !q.right));
      NilHashMeansNoLeaves(t, Child(q.parent, !q.right));
      proofs := proofs + [Nil(shape.nilLeaf, shape.maxDepth - i)];
      q := q.parent;
      i := i - 1;
    }
    assert q == Root && proofs + [] == proofs;
  }

  class SparseMerkleTree {
    const maxDepth: nat
    const nilLeaf: Digest
    var nodes: Nodes
    var version: nat
    ghost var values: map<Path, Digest>

    ghost function Content(): Flat
      reads this
    {
      Flat(values, nilLeaf, maxDepth)
    }

    ghost predicate Valid()
      reads this
    {
      Settled(nodes, Content())
    }

    function Shape(): Flat {
      Flat(map[], nilLeaf, maxDepth)
    }

    constructor (maxDepth: nat, nilLeaf: Digest)
      requires maxDepth > 0
      ensures Valid() && Content() == Flat(map[], nilLeaf, maxDepth) && version == 0
      ensures nodes.Keys == {Root} && nodes[Root].version == 0
    {
      this.maxDepth, this.nilLeaf := maxDepth, nilLeaf;
      nodes := map[Root := NewNode(Flat(map[], nilLeaf, maxDepth), Root)];
      version := 0;
      values := map[];
      new;
      forall p | Depth(p) <= maxDepth ensures !HasLeaves(Content(), p) {
        NothingSet(Content(), p);
      }
      NilHashMeansNoLeaves(Content(), Root);
    }

    static method NewSparseMerkleTree(maxDepth: nat, nilLeaf: Digest) returns (tree: SparseMerkleTree?)
      ensures tree == null <==> maxDepth == 0
      ensures tree != null ==>
                fresh(tree) && tree.Valid() && tree.Content() == Flat(map[], nilLeaf, maxDepth) && tree.version == 0
    {
      if maxDepth == 0 { return null; }
      tree := new SparseMerkleTree(maxDepth, nilLeaf);
    }

    method RootOf() returns (hash: Digest)
      requires Valid()
      ensures hash == RootHash(Content())
    {
      return nodes[Root].hash;
    }

    method IsEmpty() returns (empty: bool)
      requires Valid()
      ensures empty <==> !HasLeaves(Content(), Root)
    {
      NilHashMeansNoLeaves(Content(), Root);
      return nodes[Root].hash == NilAt(Shape(), Root);
    }

    method Get(key: nat, atVersion: nat) returns (result: Result<Digest>)
      requires Valid()
      ensures result == if !HasLeaves(Content(), Root) then Err(ErrEmptyRoot)
                        else if key >= ShiftLeft(1, maxDepth) then Err(ErrInvalidKey)
                        else if atVersion != version then Err(ErrInvalidVersion)
                        else Ok(ValueAt(Content(), KeyPath(key, maxDepth)))
    {
      var empty := IsEmpty();
      if empty { return Err(ErrEmptyRoot); }
      if key >= ShiftLeft(1, maxDepth) { return Err(ErrInvalidKey); }
      if atVersion != version { return Err(ErrInvalidVersion); }
      ghost var k := KeyPath(key, maxDepth);
      var current := Root;
      var depth := 0;
      KeyEnds(key, maxDepth);
      while depth < maxDepth
        invariant depth <= maxDepth && current == KeyNode(key, maxDepth, depth)
      {
        if current !in nodes {
          KeyBelow(key, maxDepth, depth);
          NilAboveMeansNil(Content(), k, current);
          return Ok(nilLeaf);
        }
        KeyNodeNext(key, maxDepth, depth);
        current := Child(current, KeyBit(key, maxDepth, depth));
        depth := depth + 1;
      }
      if current !in nodes {
        NilAboveMeansNil(Content(), k, current);
        return Ok(nilLeaf);
      }
      return Ok(nodes[current].hash);
    }

    method SetWithVersion(key: nat, val: Digest, newVersion: nat) returns (result: Result<()>)
      requires Valid()
      modifies this
      ensures result == if key >= ShiftLeft(1, maxDepth) then Err(ErrInvalidKey)
                        else if newVersion <= old(version) then Err(ErrVersionTooLow)
                        else Ok(())
      ensures version == old(version)
      ensures Valid()
      ensures result.Err? ==> nodes == old(nodes) && Content() == old(Content())
      ensures result.Ok? ==>
                var one := map[KeyPath(key, maxDepth) := val];
                && Content() == Updated(old(Content()), one)
                && SetsLeaves(old(nodes), nodes, old(Content()), one, newVersion)
    {
      if key >= ShiftLeft(1, maxDepth) { return Err(ErrInvalidKey); }
      if newVersion <= version { return Err(ErrVersionTooLow); }
      nodes := SetOne(nodes, Shape(), key, val, newVersion,
                      Job(nodes, Content(), map[KeyPath(key, maxDepth) := val], newVersion));
      values := values + map[KeyPath(key, maxDepth) := val];
      return Ok(());
    }

    /** Sets many leaves at once; every order of the workers' steps is allowed. */
    method MultiSetWithVersion(items: seq<Item>, newVersion: nat) returns (result: Result<()>)
      requires Valid()
      modifies this
      ensures version == old(version)
      ensures result.Ok? <==> forall i :: 0 <= i < |items| ==> GoodItem(items, i, maxDepth)
      ensures result.Ok? ==>
                && Valid()
                && Content() == Updated(old(Content()), ItemMap(items, maxDepth))
                && (items == [] ==> nodes == old(nodes))
                && (items != [] ==>
                      SetsLeaves(old(nodes), nodes, old(Content()), ItemMap(items, maxDepth), newVersion))
      ensures result.Err? ==>
                && Root in nodes && nodes[Root].hash == old(nodes)[Root].hash
                && exists i :: 0 <= i < |items| && !GoodItem(items, i, maxDepth)
                     && (forall j :: 0 <= j < i ==> GoodItem(items, j, maxDepth))
                     && result == Err(if items[i].key >= ShiftLeft(1, maxDepth) then ErrInvalidKey else ErrDuplicateKey)
    {
      if items == [] {
        assert values + map[] == values;
        return Ok(());
      }
      var accepted, bad := CheckItems(items, maxDepth);
      if bad < |items| {
        Abandon(accepted, newVersion);
        return Err(if items[bad].key >= ShiftLeft(1, maxDepth) then ErrInvalidKey else ErrDuplicateKey);
      }
      assert items[..|items|] == items;
      nodes := RunWorkers(nodes, Shape(), accepted, newVersion, Content());
      values := values + accepted;
      return Ok(());
    }

    /** A rejected item: workers of the accepted ones may have run for a while; none of them rehashes. */
    method Abandon(accepted: map<Path, Digest>, newVersion: nat)
      requires Valid() && LeafKeys(accepted.Keys, maxDepth)
      modifies this
      ensures version == old(version)
      ensures Root in nodes && nodes[Root].hash == old(nodes)[Root].hash
    {
      ghost var job := Job(nodes, Content(), accepted, newVersion);
      var m := RunMarkers(Job(nodes, Shape(), accepted, newVersion), job, true);
      RootNotYetHashed(job, m);
      nodes := m.nodes;
    }

    method GetProof(key: nat) returns (result: Result<seq<Digest>>)
      requires Valid()
      ensures result == if HasLeaves(Content(), Root) && key >= ShiftLeft(1, maxDepth) then Err(ErrInvalidKey)
                        else Ok(Siblings(Content(), KeyPath(key, maxDepth)))
    {
      var empty := IsEmpty();
      if empty {
        var nils := NilProof(Shape(), key, Content());
        return Ok(nils);
      }
      if key >= ShiftLeft(1, maxDepth) { return Err(ErrInvalidKey); }
      var proofs: seq<Digest> := [];
      var target := Root;
      KeyEnds(key, maxDepth);
      for depth := 0 to maxDepth
        invariant target == KeyNode(key, maxDepth, depth)
        invariant Reversed(proofs) == Siblings(Content(), target)
      {
        KeyNodeNext(key, maxDepth, depth);
        var neighbor := Child(target, !KeyBit(key, maxDepth, depth));
        SiblingHash(nodes, Content(), neighbor);
        var hash := if target !in nodes || neighbor !in nodes then Nil(nilLeaf, maxDepth - (depth + 1))
                    else nodes[neighbor].hash;
        ReversedAppend(proofs, hash);
        proofs := proofs + [hash];
        target := Child(target, KeyBit(key, maxDepth, depth));
      }
      return Ok(Reversed(proofs));
    }

    /** A proof is accepted exactly when it lists the tree's own siblings of a valid key. */
    method VerifyProof(key: nat, proof: seq<Digest>) returns (valid: bool)
      requires Valid()
      ensures valid <==> key < ShiftLeft(1, maxDepth) && proof == Siblings(Content(), KeyPath(key, maxDepth))
    {
      if key >= ShiftLeft(1, maxDepth) { return false; }
      var value := Get(key, version);
      ghost var t, k := Content(), KeyPath(key, maxDepth);
      if value.Err? && value.error != ErrEmptyRoot { return false; }
      var keyVal := if value.Err? then nilLeaf else value.value;
      if value.Err? {
        AllBelowRoot(k);
        NilAboveMeansNil(t, k, Root);
      }
      var helpers: seq<bool> := [];
      KeyEnds(key, maxDepth);
      for depth := 0 to maxDepth
        invariant Reversed(helpers) == Bits(KeyNode(key, maxDepth, depth))
      {
        KeyNodeNext(key, maxDepth, depth);
        ReversedAppend(helpers, KeyBit(key, maxDepth, depth));
        helpers := helpers + [KeyBit(key, maxDepth, depth)];
      }
      helpers := Reversed(helpers);
      if |proof| != |helpers| { return false; }
      var node := RecalculateRoot(keyVal, proof, helpers);
      OpeningIsUnique(t, k, keyVal, proof);
      return nodes[Root].hash == node;
    }

    method CommitWithNewVersion(newVersion: Option<nat>) returns (committed: nat)
      requires Valid()
      modifies this`version
      ensures Valid() && Content() == old(Content())
      ensures version == committed == match newVersion case None => old(version) + 1 case Some(v) => v
    {
      committed := match newVersion case None => version + 1 case Some(v) => v;
      version := committed;
    }
  }

  // Facts the methods use

  lemma {:induction false} KeyEnds(key: nat, maxDepth: nat)
    ensures KeyNode(key, maxDepth, 0) == Root
    ensures KeyNode(key, maxDepth, maxDepth) == KeyPath(key, maxDepth)
  {
  }

  lemma {:induction false} KeyBelow(key: nat, maxDepth: nat, depth: nat)
    requires depth <= maxDepth
    ensures Below(KeyPath(key, maxDepth), KeyNode(key, maxDepth, depth))
    decreases maxDepth - depth
  {
    if depth < maxDepth {
      KeyBelow(key, maxDepth, depth + 1);
      KeyNodeNext(key, maxDepth, depth);
      var c := KeyNode(key, maxDepth, depth + 1);
      assert Below(c, c.parent);
      BelowTransitive(KeyPath(key, maxDepth), c, c.parent);
    }
  }

  lemma {:induction false} NothingSet(t: Flat, p: Path)
    requires t.values == map[] && Depth(p) <= t.maxDepth
    ensures !HasLeaves(t, p)
    decreases t.maxDepth - Depth(p)
  {
    if Depth(p) < t.maxDepth {
      NothingSet(t, Child(p, false));
      NothingSet(t, Child(p, true));
    }
  }

  lemma {:induction false} EmptyEverywhere(t: Flat, p: Path)
    requires Depth(p) <= t.maxDepth && !HasLeaves(t, Root)
    ensures !HasLeaves(t, p)
  {
    if p.Child? {
      EmptyEverywhere(t, p.parent);
      assert p == Child(p.parent, p.right);
    }
  }

  lemma {:induction false} SiblingHash(nodes: Nodes, t: Flat, c: Path)
    requires Settled(nodes, t) && c.Child? && Depth(c) <= t.maxDepth
    ensures HashAt(t, c) == if c.parent !in nodes || c !in nodes then NilAt(t, c) else nodes[c].hash
  {
    NilHashMeansNoLeaves(t, c);
    assert c == Child(c.parent, c.right);
    if HasLeaves(t, c) {
      assert HasLeaves(t, c.parent);
    }
  }

  lemma {:induction false} ExtendedAtRoot(job: Job)
    requires ValidJob(job)
    ensures Extended(job, job.before, Root)
  {
  }

  lemma {:induction false} RootNotYetHashed(job: Job, m: Marking)
    requires MarkInv(job, m)
    ensures Root in m.nodes && m.nodes[Root].hash == job.before[Root].hash
  {
    assert Root in job.before;
    assert Depth(Root) != job.t.maxDepth;
  }
}
