/** The published deltas of a block: encoding per the blob schema, and the decoder of the exit witness tool. */
module PubdataDeltas {
  import opened Options
  import opened PubdataStream
  import opened PubdataFields

  /** A published account, with its entries in the order they are written. */
  datatype Account = Account(
    index: nat, accountType: nat, address: Option<seq<Byte>>, pool: Option<PoolInfo>,
    positions: seq<(nat, Position)>, options: seq<(nat, int)>, assets: seq<(nat, int)>, shares: seq<Share>)

  /** A decoded account: entries by key, shares sorted by pool. */
  datatype Delta = Delta(
    index: int, accountType: nat, address: Option<seq<Byte>>, pool: PoolInfo,
    positions: map<nat, Position>, options: map<int, int>, assets: map<nat, int>, shares: seq<Share>)

  // Entries as rows

  function PositionRows(entries: seq<(nat, Position)>): seq<seq<nat>> {
    seq(|entries|, i requires 0 <= i < |entries| => PackPosition(entries[i].0, entries[i].1))
  }

  function OptionRows(entries: seq<(nat, int)>): seq<seq<nat>> {
    seq(|entries|, i requires 0 <= i < |entries| => PackOption(entries[i].0, entries[i].1))
  }

  function AssetRows(entries: seq<(nat, int)>): seq<seq<nat>> {
    seq(|entries|, i requires 0 <= i < |entries| => PackAsset(entries[i].0, entries[i].1))
  }

  function ShareRows(shares: seq<Share>): seq<seq<nat>> {
    seq(|shares|, i requires 0 <= i < |shares| => PackShare(shares[i]))
  }

  /** Entries by key; a later entry replaces an earlier one. */
  function ByKey<K, V>(entries: seq<(K, V)>): map<K, V> {
    if entries == [] then map[]
    else ByKey(entries[..|entries| - 1])[entries[|entries| - 1].0 := entries[|entries| - 1].1]
  }

  function PositionsOf(rows: seq<seq<nat>>): seq<(nat, Position)>
  {
    seq(|rows|, i requires 0 <= i < |rows| => if |rows[i]| == 3 then UnpackPosition(rows[i]) else (0, Position(0, 0)))
  }

  function OptionsOf(rows: seq<seq<nat>>): seq<(int, int)>
  {
    seq(|rows|, i requires 0 <= i < |rows| => if |rows[i]| == 2 then UnpackOption(rows[i]) else (0, 0))
  }

  function AssetsOf(rows: seq<seq<nat>>): seq<(nat, int)>
  {
    seq(|rows|, i requires 0 <= i < |rows| => if |rows[i]| == 2 then UnpackAsset(rows[i]) else (0, 0))
  }

  function SharesOf(rows: seq<seq<nat>>): seq<Share>
  {
    seq(|rows|, i requires 0 <= i < |rows| => if |rows[i]| == 2 then UnpackShare(rows[i]) else Share(0, 0))
  }

  // Sorting shares

  function Inserted(sorted: seq<Share>, s: Share): seq<Share> {
    if sorted == [] || sorted[|sorted| - 1].pool <= s.pool then sorted + [s]
    else Inserted(sorted[..|sorted| - 1], s) + [sorted[|sorted| - 1]]
  }

  function SortShares(shares: seq<Share>): seq<Share> {
    if shares == [] then [] else Inserted(SortShares(shares[..|shares| - 1]), shares[|shares| - 1])
  }

  predicate SortedShares(shares: seq<Share>) {
    forall i, j :: 0 <= i < j < |shares| ==> shares[i].pool <= shares[j].pool
  }

  predicate AllUpTo(shares: seq<Share>, pool: int) {
    forall i :: 0 <= i < |shares| ==> shares[i].pool <= pool
  }

  lemma {:induction false} InsertedUpTo(sorted: seq<Share>, s: Share, pool: int)
    requires AllUpTo(sorted, pool) && s.pool <= pool
    ensures AllUpTo(Inserted(sorted, s), pool)
  {
    if sorted != [] && sorted[|sorted| - 1].pool > s.pool {
      InsertedUpTo(sorted[..|sorted| - 1], s, pool);
    }
  }

  lemma {:induction false} InsertedIsSorted(sorted: seq<Share>, s: Share)
    requires SortedShares(sorted)
    ensures SortedShares(Inserted(sorted, s))
  {
    if sorted != [] && sorted[|sorted| - 1].pool > s.pool {
      InsertedIsSorted(sorted[..|sorted| - 1], s);
      InsertedUpTo(sorted[..|sorted| - 1], s, sorted[|sorted| - 1].pool);
    }
  }

  lemma {:induction false} InsertedKeepsAll(sorted: seq<Share>, s: Share)
    ensures multiset(Inserted(sorted, s)) == multiset(sorted) + multiset{s}
  {
    if sorted != [] && sorted[|sorted| - 1].pool > s.pool {
      InsertedKeepsAll(sorted[..|sorted| - 1], s);
      assert sorted == sorted[..|sorted| - 1] + [sorted[|sorted| - 1]];
    }
  }

  lemma {:induction false} SortSharesKeepsAll(shares: seq<Share>)
    ensures multiset(SortShares(shares)) == multiset(shares)
  {
    if shares != [] {
      var front, last := shares[..|shares| - 1], shares[|shares| - 1];
      SortSharesKeepsAll(front);
      InsertedKeepsAll(SortShares(front), last);
      assert shares == front + [last];
    }
  }

  /** The decoder's final order is sorted and a permutation. */
  lemma {:induction false} SortSharesSorts(shares: seq<Share>)
    ensures SortedShares(SortShares(shares)) && multiset(SortShares(shares)) == multiset(shares)
  {
    SortSharesKeepsAll(shares);
    if shares != [] {
      SortSharesSorts(shares[..|shares| - 1]);
      InsertedIsSorted(SortShares(shares[..|shares| - 1]), shares[|shares| - 1]);
    }
  }

  // Accounts

  predicate AccountFits(version: nat, a: Account) {
    && a.index <= MAX_ACCOUNT_INDEX && a.accountType < 256
    && (a.address.Some? ==> |a.address.value| == 20)
    && (a.pool.Some? ==> PoolFits(a.pool.value))
    && (forall i :: 0 <= i < |a.positions| ==> PositionFits(a.positions[i].0, a.positions[i].1))
    && (forall i :: 0 <= i < |a.options| ==> OptionFits(a.options[i].0, a.options[i].1))
    && (forall i :: 0 <= i < |a.assets| ==> AssetFits(a.assets[i].0, a.assets[i].1))
    && (forall i :: 0 <= i < |a.shares| ==> ShareFits(a.shares[i]))
    && IsTarget(|a.positions|) && IsTarget(|a.options|) && IsTarget(|a.assets|) && IsTarget(|a.shares|)
    && (version < 2 ==> a.options == [])
  }

  /** What a decoder should make of an account. */
  function DeltaOf(a: Account): Delta {
    Delta(a.index, a.accountType, a.address, if a.pool.Some? then a.pool.value else PoolInfo(0, 0),
          ByKey(a.positions), ByKey(SignedKeys(a.options)), ByKey(a.assets), SortShares(a.shares))
  }

  function SignedKeys(entries: seq<(nat, int)>): seq<(int, int)> {
    seq(|entries|, i requires 0 <= i < |entries| => (entries[i].0, entries[i].1))
  }

  function FlagsOf(a: Account): nat {
    4 * a.accountType + (if a.pool.Some? then 2 else 0) + (if a.address.Some? then 1 else 0)
  }

  function AddressRow(a: Account): seq<nat>
    requires a.address.Some? ==> |a.address.value| == 20
  {
    if a.address.Some? then PackAddress(a.address.value) else []
  }

  function PoolRow(a: Account): seq<nat> {
    if a.pool.Some? then PackPool(a.pool.value) else []
  }

  // The parts of an account behind its flags

  datatype Part = Fixed(count: nat) | Counted(width: nat)

  /** Address, pool info, positions, binary options positions from version 2 on, assets, shares. */
  function Format(version: nat, flags: nat): seq<Part> {
    [Fixed(if flags % 2 == 1 then 3 else 0), Fixed(if flags / 2 % 2 == 1 then 3 else 0), Counted(3)]
    + (if version >= 2 then [Counted(2)] else []) + [Counted(2), Counted(2)]
  }

  function ReadPart(s: seq<Limb>, part: Part): (r: Option<Read<seq<seq<nat>>>>)
    ensures r.Some? ==> |r.value.rest| <= |s|
  {
    match part
    case Counted(width) => ReadTable(s, width)
    case Fixed(count) =>
      (match ReadMany(s, count)
       case None => None
       case Some(row) => Some(Read([row.value], row.rest)))
  }

  function ReadParts(s: seq<Limb>, parts: seq<Part>): (r: Option<Read<seq<seq<seq<nat>>>>>)
    ensures r.Some? ==> |r.value.rest| <= |s|
    decreases |parts|
  {
    if parts == [] then Some(Read([], s))
    else
      match ReadPart(s, parts[0])
      case None => None
      case Some(first) =>
        match ReadParts(first.rest, parts[1..])
        case None => None
        case Some(others) => Some(Read([first.value] + others.value, others.rest))
  }

  predicate PartFits(part: Part, rows: seq<seq<nat>>) {
    match part
    case Counted(width) => RowsOf(rows, width) && IsTarget(|rows|)
    case Fixed(count) => |rows| == 1 && |rows[0]| == count && AllTargets(rows[0])
  }

  predicate PartsFit(parts: seq<Part>, groups: seq<seq<seq<nat>>>) {
    |parts| == |groups| && forall i :: 0 <= i < |parts| ==> PartFits(parts[i], groups[i])
  }

  function Written(part: Part, rows: seq<seq<nat>>): seq<nat>
    requires PartFits(part, rows)
  {
    if part.Counted? then Table(rows) else rows[0]
  }

  /** The parts in order, followed by other targets. */
  function WriteParts(parts: seq<Part>, groups: seq<seq<seq<nat>>>, vs: seq<nat>): seq<nat>
    requires PartsFit(parts, groups)
    decreases |parts|
  {
    if parts == [] then vs else Written(parts[0], groups[0]) + WriteParts(parts[1..], groups[1..], vs)
  }

  lemma {:induction false} ReadPartFirst(part: Part, rows: seq<seq<nat>>, vs: seq<nat>, tail: seq<Limb>)
    requires PartFits(part, rows) && AllTargets(vs)
    ensures AllTargets(Written(part, rows) + vs)
    ensures ReadPart(Stream(Written(part, rows) + vs, tail), part) == Some(Read(rows, Stream(vs, tail)))
  {
    if part.Counted? {
      ReadTableFirst(rows, part.width, vs, tail);
    } else {
      ReadManyFirst(rows[0], vs, tail);
      assert rows == [rows[0]];
    }
  }

  lemma {:induction false} ReadPartsFirst(parts: seq<Part>, groups: seq<seq<seq<nat>>>, vs: seq<nat>, tail: seq<Limb>)
    requires PartsFit(parts, groups) && AllTargets(vs)
    ensures AllTargets(WriteParts(parts, groups, vs))
    ensures ReadParts(Stream(WriteParts(parts, groups, vs), tail), parts) == Some(Read(groups, Stream(vs, tail)))
    decreases |parts|
  {
    if parts != [] {
      ReadPartsFirst(parts[1..], groups[1..], vs, tail);
      ReadPartAndMore(parts, groups[0], groups[1..], WriteParts(parts[1..], groups[1..], vs), tail, Stream(vs, tail));
      assert groups == [groups[0]] + groups[1..];
    }
  }

  lemma {:induction false} ReadPartAndMore(
    parts: seq<Part>, rows: seq<seq<nat>>, groups: seq<seq<seq<nat>>>, more: seq<nat>, tail: seq<Limb>,
    rest: seq<Limb>)
    requires parts != [] && PartFits(parts[0], rows) && AllTargets(more)
    requires ReadParts(Stream(more, tail), parts[1..]) == Some(Read(groups, rest))
    ensures AllTargets(Written(parts[0], rows) + more)
    ensures ReadParts(Stream(Written(parts[0], rows) + more, tail), parts) == Some(Read([rows] + groups, rest))
  {
    ReadPartFirst(parts[0], rows, more, tail);
    ReadPartsStep(parts, Stream(Written(parts[0], rows) + more, tail), Read(rows, Stream(more, tail)),
                  Read(groups, rest));
  }

  lemma {:induction false} ReadPartsStep(
    parts: seq<Part>, s: seq<Limb>, first: Read<seq<seq<nat>>>, others: Read<seq<seq<seq<nat>>>>)
    requires parts != [] && ReadPart(s, parts[0]) == Some(first) && ReadParts(first.rest, parts[1..]) == Some(others)
    ensures ReadParts(s, parts) == Some(Read([first.value] + others.value, others.rest))
  {
  }

  /** An account as it stands in the stream. */
  datatype Rows = Rows(index: int, flags: nat, groups: seq<seq<seq<nat>>>)

  function Group(r: Rows, i: nat): seq<seq<nat>> {
    if i < |r.groups| then r.groups[i] else []
  }

  function FirstRow(rows: seq<seq<nat>>): seq<nat> {
    if rows == [] then [] else rows[0]
  }

  function Interpret(version: nat, r: Rows): Delta {
    var address, pool := FirstRow(Group(r, 0)), FirstRow(Group(r, 1));
    var next := if version >= 2 then 4 else 3;
    Delta(r.index, r.flags / 4 % 256,
          if r.flags % 2 == 1 && |address| == 3 then Some(UnpackAddress(address)) else None,
          if r.flags / 2 % 2 == 1 && |pool| == 3 then UnpackPool(pool) else PoolInfo(0, 0),
          ByKey(PositionsOf(Group(r, 2))), ByKey(OptionsOf(if version >= 2 then Group(r, 3) else [])),
          ByKey(AssetsOf(Group(r, next))), SortShares(SharesOf(Group(r, next + 1))))
  }

  function GroupsFor(version: nat, a: Account): seq<seq<seq<nat>>>
    requires a.address.Some? ==> |a.address.value| == 20
  {
    [[AddressRow(a)], [PoolRow(a)], PositionRows(a.positions)]
    + (if version >= 2 then [OptionRows(a.options)] else []) + [AssetRows(a.assets), ShareRows(a.shares)]
  }

  function RowsFor(version: nat, a: Account): Rows
    requires AccountFits(version, a)
  {
    Rows(a.index, FlagsOf(a), GroupsFor(version, a))
  }

  function ReadBody(version: nat, s: seq<Limb>, index: int): (r: Option<Read<Rows>>)
    ensures r.Some? ==> |r.value.rest| < |s|
  {
    match ReadTarget(s)
    case None => None
    case Some(flags) =>
      match ReadParts(flags.rest, Format(version, flags.value))
      case None => None
      case Some(groups) => Some(Read(Rows(index, flags.value, groups.value), groups.rest))
  }

  // Round trip of one account

  lemma {:induction false} PositionRowsRoundTrip(entries: seq<(nat, Position)>)
    requires forall i :: 0 <= i < |entries| ==> PositionFits(entries[i].0, entries[i].1)
    ensures RowsOf(PositionRows(entries), 3) && PositionsOf(PositionRows(entries)) == entries
  {
    forall i | 0 <= i < |entries|
      ensures AllTargets(PositionRows(entries)[i]) && UnpackPosition(PositionRows(entries)[i]) == entries[i]
    {
      PositionRoundTrip(entries[i].0, entries[i].1);
    }
  }

  lemma {:induction false} OptionRowsRoundTrip(entries: seq<(nat, int)>)
    requires forall i :: 0 <= i < |entries| ==> OptionFits(entries[i].0, entries[i].1)
    ensures RowsOf(OptionRows(entries), 2) && OptionsOf(OptionRows(entries)) == SignedKeys(entries)
  {
    forall i | 0 <= i < |entries|
      ensures AllTargets(OptionRows(entries)[i]) && UnpackOption(OptionRows(entries)[i]) == SignedKeys(entries)[i]
    {
      OptionRoundTrip(entries[i].0, entries[i].1);
    }
  }

  lemma {:induction false} AssetRowsRoundTrip(entries: seq<(nat, int)>)
    requires forall i :: 0 <= i < |entries| ==> AssetFits(entries[i].0, entries[i].1)
    ensures RowsOf(AssetRows(entries), 2) && AssetsOf(AssetRows(entries)) == entries
  {
    forall i | 0 <= i < |entries|
      ensures AllTargets(AssetRows(entries)[i]) && UnpackAsset(AssetRows(entries)[i]) == entries[i]
    {
      AssetRoundTrip(entries[i].0, entries[i].1);
    }
  }

  lemma {:induction false} ShareRowsRoundTrip(shares: seq<Share>)
    requires forall i :: 0 <= i < |shares| ==> ShareFits(shares[i])
    ensures RowsOf(ShareRows(shares), 2) && SharesOf(ShareRows(shares)) == shares
  {
    forall i | 0 <= i < |shares|
      ensures AllTargets(ShareRows(shares)[i]) && UnpackShare(ShareRows(shares)[i]) == shares[i]
    {
      ShareRoundTrip(shares[i]);
    }
  }

  lemma {:induction false} FlagsUnpack(a: Account)
    requires a.accountType < 256
    ensures IsTarget(FlagsOf(a))
    ensures FlagsOf(a) % 2 == (if a.address.Some? then 1 else 0)
    ensures FlagsOf(a) / 2 % 2 == (if a.pool.Some? then 1 else 0)
    ensures FlagsOf(a) / 4 % 256 == a.accountType
  {
  }

  /** The groups of an account have the format its flags announce. */
  lemma {:induction false} GroupsFit(version: nat, a: Account)
    requires AccountFits(version, a)
    ensures PartsFit(Format(version, FlagsOf(a)), GroupsFor(version, a))
  {
    FlagsUnpack(a);
    PositionRowsRoundTrip(a.positions);
    OptionRowsRoundTrip(a.options);
    AssetRowsRoundTrip(a.assets);
    ShareRowsRoundTrip(a.shares);
    if a.address.Some? {
      AddressRoundTrip(a.address.value);
    }
    if a.pool.Some? {
      PoolRoundTrip(a.pool.value);
    }
  }

  /** Everything of an account but its index, followed by other targets. */
  function Body(version: nat, a: Account, vs: seq<nat>): seq<nat>
    requires AccountFits(version, a)
  {
    GroupsFit(version, a);
    [FlagsOf(a)] + WriteParts(Format(version, FlagsOf(a)), GroupsFor(version, a), vs)
  }

  lemma {:induction false} BodyRoundTrip(version: nat, a: Account, vs: seq<nat>, tail: seq<Limb>)
    requires AccountFits(version, a) && AllTargets(vs)
    ensures AllTargets(Body(version, a, vs))
    ensures ReadBody(version, Stream(Body(version, a, vs), tail), a.index)
         == Some(Read(RowsFor(version, a), Stream(vs, tail)))
  {
    GroupsFit(version, a);
    FlagsUnpack(a);
    PartsBehindFlags(version, FlagsOf(a), GroupsFor(version, a), vs, tail, a.index);
  }

  lemma {:induction false} PartsBehindFlags(
    version: nat, flags: nat, groups: seq<seq<seq<nat>>>, vs: seq<nat>, tail: seq<Limb>, index: int)
    requires IsTarget(flags) && PartsFit(Format(version, flags), groups) && AllTargets(vs)
    ensures var all := [flags] + WriteParts(Format(version, flags), groups, vs);
            && AllTargets(all)
            && ReadBody(version, Stream(all, tail), index) == Some(Read(Rows(index, flags, groups), Stream(vs, tail)))
  {
    var parts := WriteParts(Format(version, flags), groups, vs);
    ReadPartsFirst(Format(version, flags), groups, vs, tail);
    ReadFirst([flags] + parts, tail);
    assert ([flags] + parts)[1..] == parts;
  }

  lemma {:induction false} GroupsInOrder(version: nat, a: Account)
    requires AccountFits(version, a)
    ensures var r := RowsFor(version, a);
            && Group(r, 0) == [AddressRow(a)] && Group(r, 1) == [PoolRow(a)] && Group(r, 2) == PositionRows(a.positions)
            && (version >= 2 ==> Group(r, 3) == OptionRows(a.options))
            && Group(r, if version >= 2 then 4 else 3) == AssetRows(a.assets)
            && Group(r, if version >= 2 then 5 else 4) == ShareRows(a.shares)
  {
  }

  lemma {:induction false} HeadMeans(a: Account)
    requires a.accountType < 256 && (a.address.Some? ==> |a.address.value| == 20)
    requires a.pool.Some? ==> PoolFits(a.pool.value)
    ensures var flags, address, pool := FlagsOf(a), AddressRow(a), PoolRow(a);
            && flags / 4 % 256 == a.accountType
            && a.address == (if flags % 2 == 1 && |address| == 3 then Some(UnpackAddress(address)) else None)
            && (if flags / 2 % 2 == 1 && |pool| == 3 then UnpackPool(pool) else PoolInfo(0, 0))
                 == (if a.pool.Some? then a.pool.value else PoolInfo(0, 0))
  {
    FlagsUnpack(a);
    if a.address.Some? {
      AddressRoundTrip(a.address.value);
    }
    if a.pool.Some? {
      PoolRoundTrip(a.pool.value);
    }
  }

  lemma {:induction false} TablesMean(version: nat, a: Account)
    requires AccountFits(version, a)
    ensures PositionsOf(PositionRows(a.positions)) == a.positions
    ensures OptionsOf(if version >= 2 then OptionRows(a.options) else []) == SignedKeys(a.options)
    ensures AssetsOf(AssetRows(a.assets)) == a.assets
    ensures SharesOf(ShareRows(a.shares)) == a.shares
  {
    PositionRowsRoundTrip(a.positions);
    OptionRowsRoundTrip(a.options);
    AssetRowsRoundTrip(a.assets);
    ShareRowsRoundTrip(a.shares);
  }

  /** The rows of an account mean the account. */
  lemma {:induction false} RowsMean(version: nat, a: Account)
    requires AccountFits(version, a)
    ensures Interpret(version, RowsFor(version, a)) == DeltaOf(a)
  {
    GroupsInOrder(version, a);
    HeadMeans(a);
    TablesMean(version, a);
  }

  // The whole stream

  predicate AccountsFit(version: nat, accounts: seq<Account>) {
    && (forall i :: 0 <= i < |accounts| ==> AccountFits(version, accounts[i]))
    && (forall i, j :: 0 <= i < j < |accounts| ==> accounts[i].index < accounts[j].index)
  }

  /** Accounts as differences of their indices. */
  function EncodeAccounts(version: nat, accounts: seq<Account>, previous: nat): seq<nat>
    requires AccountsFit(version, accounts)
    requires accounts != [] ==> previous <= accounts[0].index
  {
    if accounts == [] then []
    else
      [accounts[0].index - previous]
      + Body(version, accounts[0], EncodeAccounts(version, accounts[1..], accounts[0].index))
  }

  datatype Next = Ended | TooShort | Got(rows: Rows, rest: seq<Limb>)

  /** The next account, unless a zero difference or the end of the stream comes first. */
  function NextAccount(version: nat, s: seq<Limb>, last: int, first: bool): (next: Next)
    ensures next.Got? ==> |next.rest| < |s|
  {
    if |s| <= 1 then Ended
    else
      match ReadTarget(s)
      case None => TooShort
      case Some(diff) =>
        if diff.value == 0 && !first then Ended
        else
          match ReadBody(version, diff.rest, last + Int64(diff.value))
          case None => TooShort
          case Some(body) => Got(body.value, body.rest)
  }

  function ReadAccounts(version: nat, s: seq<Limb>, last: int, first: bool, read: map<int, Rows>)
    : Option<map<int, Rows>>
    decreases |s|
  {
    match NextAccount(version, s, last, first)
    case Ended => Some(read)
    case TooShort => None
    case Got(rows, rest) => ReadAccounts(version, rest, rows.index, false, read[rows.index := rows])
  }

  function RowsOfAll(version: nat, accounts: seq<Account>, read: map<int, Rows>): map<int, Rows>
    requires AccountsFit(version, accounts)
  {
    if accounts == [] then read
    else RowsOfAll(version, accounts[1..], read[accounts[0].index as int := RowsFor(version, accounts[0])])
  }

  /** Zero padding ends the accounts. */
  lemma {:induction false} PaddingEnds(version: nat, n: nat, last: int, read: map<int, Rows>)
    ensures ReadAccounts(version, Zeros(n), last, false, read) == Some(read)
  {
    if n > 1 {
      ReadPadding(n);
    }
  }

  lemma {:induction false} StreamIsLong(vs: seq<nat>, tail: seq<Limb>)
    requires AllTargets(vs)
    ensures |Stream(vs, tail)| >= |vs| + |tail|
  {
    if vs != [] {
      StreamIsLong(vs[1..], tail);
    }
  }

  lemma {:induction false} AccountsRoundTrip(
    version: nat, accounts: seq<Account>, previous: nat, first: bool, read: map<int, Rows>, n: nat)
    requires AccountsFit(version, accounts)
    requires accounts != [] ==> previous <= accounts[0].index && (!first ==> previous < accounts[0].index)
    requires accounts != [] || !first
    ensures AllTargets(EncodeAccounts(version, accounts, previous))
    ensures ReadAccounts(version, Stream(EncodeAccounts(version, accounts, previous), Zeros(n)), previous, first, read)
         == Some(RowsOfAll(version, accounts, read))
    decreases |accounts|
  {
    if accounts == [] {
      PaddingEnds(version, n, previous, read);
    } else {
      var a, next := accounts[0], read[accounts[0].index as int := RowsFor(version, accounts[0])];
      AccountsRoundTrip(version, accounts[1..], a.index, false, next, n);
      var more := EncodeAccounts(version, accounts[1..], a.index);
      OneAccountRoundTrip(version, a, previous, first, more, Zeros(n));
      var vs := EncodeAccounts(version, accounts, previous);
      assert vs == [a.index - previous] + Body(version, a, more);
      GoOnFrom(version, Stream(vs, Zeros(n)), previous, first, read, RowsFor(version, a), Stream(more, Zeros(n)),
               a.index);
    }
  }

  /** Reading one account. */
  lemma {:induction false} OneAccountRoundTrip(
    version: nat, a: Account, previous: nat, first: bool, more: seq<nat>, tail: seq<Limb>)
    requires AccountFits(version, a) && AllTargets(more)
    requires previous <= a.index && (!first ==> previous < a.index)
    ensures var vs := [a.index - previous] + Body(version, a, more);
            && AllTargets(vs)
            && NextAccount(version, Stream(vs, tail), previous, first)
                 == Got(RowsFor(version, a), Stream(more, tail))
  {
    GroupsFit(version, a);
    FlagsUnpack(a);
    OneAccountOfGroups(version, FlagsOf(a), GroupsFor(version, a), a.index, previous, first, more, tail);
  }

  lemma {:induction false} OneAccountOfGroups(
    version: nat, flags: nat, groups: seq<seq<seq<nat>>>, index: nat, previous: nat, first: bool, more: seq<nat>,
    tail: seq<Limb>)
    requires IsTarget(flags) && PartsFit(Format(version, flags), groups) && AllTargets(more)
    requires previous <= index && (!first ==> previous < index) && IsTarget(index)
    ensures var vs := [index - previous] + ([flags] + WriteParts(Format(version, flags), groups, more));
            && AllTargets(vs)
            && NextAccount(version, Stream(vs, tail), previous, first)
                 == Got(Rows(index, flags, groups), Stream(more, tail))
  {
    PartsBehindFlags(version, flags, groups, more, tail, index);
    AccountBehind(version, [flags] + WriteParts(Format(version, flags), groups, more), index, previous, first, tail,
                  Rows(index, flags, groups), Stream(more, tail));
  }

  lemma {:induction false} AccountBehind(
    version: nat, body: seq<nat>, index: nat, previous: nat, first: bool, tail: seq<Limb>, rows: Rows, rest: seq<Limb>)
    requires previous <= index && (!first ==> previous < index) && IsTarget(index - previous)
    requires AllTargets(body) && body != []
    requires ReadBody(version, Stream(body, tail), index) == Some(Read(rows, rest))
    ensures AllTargets([index - previous] + body)
    ensures NextAccount(version, Stream([index - previous] + body, tail), previous, first) == Got(rows, rest)
  {
    NextIs(version, body, index - previous, previous, first, tail, Read(rows, rest));
  }

  lemma {:induction false} GoOnFrom(
    version: nat, s: seq<Limb>, last: int, first: bool, read: map<int, Rows>, rows: Rows, rest: seq<Limb>, index: int)
    requires NextAccount(version, s, last, first) == Got(rows, rest) && rows.index == index
    ensures ReadAccounts(version, s, last, first, read)
         == ReadAccounts(version, rest, index, false, read[index := rows])
  {
    GoOn(version, s, last, first, read, rows, rest);
  }

  lemma {:induction false} GoOn(
    version: nat, s: seq<Limb>, last: int, first: bool, read: map<int, Rows>, rows: Rows, rest: seq<Limb>)
    requires NextAccount(version, s, last, first) == Got(rows, rest)
    ensures ReadAccounts(version, s, last, first, read)
         == ReadAccounts(version, rest, rows.index, false, read[rows.index := rows])
  {
  }

  /** A non-zero index difference, or the first one, is followed by an account. */
  lemma {:induction false} NextIs(
    version: nat, vs: seq<nat>, diff: nat, last: int, first: bool, tail: seq<Limb>, body: Read<Rows>)
    requires AllTargets(vs) && vs != [] && IsTarget(diff) && (diff != 0 || first)
    requires ReadBody(version, Stream(vs, tail), last + diff) == Some(body)
    ensures NextAccount(version, Stream([diff] + vs, tail), last, first) == Got(body.value, body.rest)
  {
    ReadFirst([diff] + vs, tail);
    assert ([diff] + vs)[1..] == vs;
    StreamIsLong([diff] + vs, tail);
    SmallInt64(diff);
    NextOf(version, Stream([diff] + vs, tail), diff, Stream(vs, tail), last, first, body);
  }

  lemma {:induction false} SmallInt64(x: nat)
    requires IsTarget(x)
    ensures Int64(x) == x
  {
  }

  lemma {:induction false} NextOf(
    version: nat, s: seq<Limb>, diff: nat, rest: seq<Limb>, last: int, first: bool, body: Read<Rows>)
    requires |s| > 1 && ReadTarget(s) == Some(Read(diff, rest)) && (diff != 0 || first) && Int64(diff) == diff
    requires ReadBody(version, rest, last + diff) == Some(body)
    ensures NextAccount(version, s, last, first) == Got(body.value, body.rest)
  {
  }

  // Markets

  predicate MarketsFit(version: nat, markets: seq<(Market, nat)>) {
    IsTarget(|markets|) && forall i :: 0 <= i < |markets| ==> MarketFits(version, markets[i].0, markets[i].1)
  }

  function MarketRows(version: nat, markets: seq<(Market, nat)>): seq<seq<nat>>
    requires MarketsFit(version, markets)
  {
    seq(|markets|, i requires 0 <= i < |markets| => PackMarket(version, markets[i].0, markets[i].1))
  }

  function Slots(markets: seq<(Market, nat)>): seq<Market> {
    seq(|markets|, i requires 0 <= i < |markets| => markets[i].0)
  }

  function MarketsOf(version: nat, rows: seq<seq<nat>>): seq<Market>
  {
    seq(|rows|, i requires 0 <= i < |rows| =>
          if |rows[i]| == MarketWidth(version) then UnpackMarket(version, rows[i]) else Market(0, 0, 0, 0, 0))
  }

  function ReadMarkets(version: nat, s: seq<Limb>): Option<Read<seq<Market>>> {
    if version == 0 then Some(Read([], s))
    else
      match ReadTable(s, MarketWidth(version))
      case None => None
      case Some(rows) => Some(Read(MarketsOf(version, rows.value), rows.rest))
  }

  datatype Deltas = Deltas(markets: seq<Market>, accounts: map<int, Delta>)

  function Decode(version: nat, s: seq<Limb>): Option<Deltas> {
    match ReadMarkets(version, s)
    case None => None
    case Some(markets) =>
      match ReadAccounts(version, markets.rest, 0, true, map[])
      case None => None
      case Some(accounts) => Some(Deltas(markets.value, InterpretAll(version, accounts)))
  }

  function Encode(version: nat, markets: seq<(Market, nat)>, accounts: seq<Account>): seq<nat>
    requires MarketsFit(version, markets) && AccountsFit(version, accounts)
  {
    (if version == 0 then [] else Table(MarketRows(version, markets))) + EncodeAccounts(version, accounts, 0)
  }

  lemma {:induction false} MarketsRoundTrip(version: nat, markets: seq<(Market, nat)>, vs: seq<nat>, tail: seq<Limb>)
    requires MarketsFit(version, markets) && AllTargets(vs) && (version == 0 ==> markets == [])
    ensures AllTargets((if version == 0 then [] else Table(MarketRows(version, markets))) + vs)
    ensures ReadMarkets(version, Stream((if version == 0 then [] else Table(MarketRows(version, markets))) + vs, tail))
         == Some(Read(Slots(markets), Stream(vs, tail)))
  {
    var rows := MarketRows(version, markets);
    forall i | 0 <= i < |markets|
      ensures |rows[i]| == MarketWidth(version) && AllTargets(rows[i]) && UnpackMarket(version, rows[i]) == markets[i].0
    {
      MarketRoundTrip(version, markets[i].0, markets[i].1);
    }
    if version == 0 {
      assert [] + vs == vs;
    } else {
      ReadTableFirst(rows, MarketWidth(version), vs, tail);
      assert MarketsOf(version, rows) == Slots(markets);
    }
  }

  /** Round trip. Any market deltas and any non-empty list of accounts sorted by index, encoded per the schema,
      packed low nibble first and padded with zero bytes, decode to the same deltas. */
  lemma {:induction false} RoundTrip(version: nat, markets: seq<(Market, nat)>, accounts: seq<Account>, padding: nat)
    requires MarketsFit(version, markets) && AccountsFit(version, accounts) && accounts != []
    requires version == 0 ==> markets == []
    ensures AllTargets(Encode(version, markets, accounts))
    ensures var bytes := Pack(Stream(Encode(version, markets, accounts), [])) + seq(padding, _ => 0 as Byte);
            Decode(version, Limbs(bytes))
              == Some(Deltas(Slots(markets), DeltasOf(accounts)))
  {
    var vs := Encode(version, markets, accounts);
    StreamDecodes(version, markets, accounts, 0);
    var limbs := Stream(vs, []);
    var n := |limbs| % 2 + 2 * padding;
    StreamDecodes(version, markets, accounts, n);
    PaddedBytes(limbs, padding);
    StreamAppends(vs, Zeros(n));
  }

  /** Before packing: the encoded targets with zeros behind them. */
  lemma {:induction false} StreamDecodes(
    version: nat, markets: seq<(Market, nat)>, accounts: seq<Account>, n: nat)
    requires MarketsFit(version, markets) && AccountsFit(version, accounts) && accounts != []
    requires version == 0 ==> markets == []
    ensures AllTargets(Encode(version, markets, accounts))
    ensures Decode(version, Stream(Encode(version, markets, accounts), Zeros(n)))
         == Some(Deltas(Slots(markets), DeltasOf(accounts)))
  {
    AccountsRoundTrip(version, accounts, 0, true, map[], n);
    MarketsRoundTrip(version, markets, EncodeAccounts(version, accounts, 0), Zeros(n));
    RowsMeanDeltas(version, accounts);
  }

  lemma {:induction false} PaddedBytes(limbs: seq<Limb>, padding: nat)
    ensures Limbs(Pack(limbs) + seq(padding, _ => 0 as Byte)) == limbs + Zeros(|limbs| % 2 + 2 * padding)
  {
    LimbsConcat(Pack(limbs), seq(padding, _ => 0 as Byte));
    LimbsOfPack(limbs);
    LimbsOfZeroBytes(padding);
    assert Zeros(|limbs| % 2) + Zeros(2 * padding) == Zeros(|limbs| % 2 + 2 * padding);
  }

  lemma {:induction false} StreamAppends(vs: seq<nat>, tail: seq<Limb>)
    requires AllTargets(vs)
    ensures Stream(vs, []) + tail == Stream(vs, tail)
  {
    if vs != [] {
      StreamAppends(vs[1..], tail);
      assert EncodeTarget(vs[0]) + Stream(vs[1..], []) + tail == EncodeTarget(vs[0]) + (Stream(vs[1..], []) + tail);
    }
  }

  /** Every published account under its index, and nothing else. */
  function DeltasOf(accounts: seq<Account>): map<int, Delta> {
    if accounts == [] then map[]
    else
      var last := accounts[|accounts| - 1];
      DeltasOf(accounts[..|accounts| - 1])[last.index as int := DeltaOf(last)]
  }

  lemma {:induction false} RowsOfAllAppend(version: nat, accounts: seq<Account>, read: map<int, Rows>)
    requires AccountsFit(version, accounts) && accounts != []
    ensures var last := accounts[|accounts| - 1];
            RowsOfAll(version, accounts, read)
              == RowsOfAll(version, accounts[..|accounts| - 1], read)[last.index as int := RowsFor(version, last)]
    decreases |accounts|
  {
    if |accounts| > 1 {
      RowsOfAllAppend(version, accounts[1..], read[accounts[0].index as int := RowsFor(version, accounts[0])]);
      assert accounts[1..][..|accounts| - 2] == accounts[..|accounts| - 1][1..];
    } else {
      assert accounts[1..] == [] && accounts[..0] == [];
    }
  }

  function InterpretAll(version: nat, read: map<int, Rows>): map<int, Delta> {
    map k | k in read :: Interpret(version, read[k])
  }

  lemma {:induction false} RowsMeanDeltas(version: nat, accounts: seq<Account>)
    requires AccountsFit(version, accounts)
    ensures InterpretAll(version, RowsOfAll(version, accounts, map[])) == DeltasOf(accounts)
  {
    if accounts != [] {
      var last := accounts[|accounts| - 1];
      RowsOfAllAppend(version, accounts, map[]);
      RowsMeanDeltas(version, accounts[..|accounts| - 1]);
      RowsMean(version, last);
      InterpretUpdate(version, RowsOfAll(version, accounts[..|accounts| - 1], map[]), last.index,
                      RowsFor(version, last), DeltaOf(last));
    }
  }

  lemma {:induction false} InterpretUpdate(version: nat, read: map<int, Rows>, k: int, rows: Rows, delta: Delta)
    requires Interpret(version, rows) == delta
    ensures InterpretAll(version, read[k := rows]) == InterpretAll(version, read)[k := delta]
  {
  }

  lemma {:induction false} DeltasHoldAll(accounts: seq<Account>)
    requires forall i, j :: 0 <= i < j < |accounts| ==> accounts[i].index < accounts[j].index
    ensures forall i :: 0 <= i < |accounts| ==>
              accounts[i].index in DeltasOf(accounts) && DeltasOf(accounts)[accounts[i].index] == DeltaOf(accounts[i])
    ensures forall k :: k in DeltasOf(accounts) ==> exists i :: 0 <= i < |accounts| && accounts[i].index == k
  {
    if accounts != [] {
      DeltasHoldAll(accounts[..|accounts| - 1]);
    }
  }

  /** With no account published the decoder does not return nothing: its first difference may be zero, so it
      reads one empty account 0 out of the padding. */
  lemma {:induction false} EmptyStreamIsAccountZero(version: nat, n: nat)
    requires n >= 6
    ensures ReadAccounts(version, Zeros(n), 0, true, map[]) == Some(map[0 := RowsFor(version, NoAccount())])
    ensures Interpret(version, RowsFor(version, NoAccount()))
         == Delta(0, 0, None, PoolInfo(0, 0), map[], map[], map[], [])
  {
    var rest := n - if version >= 2 then 6 else 5;
    var rows := RowsFor(version, NoAccount());
    EmptyAccountIsNext(version, rest);
    GoOnFrom(version, Zeros(n), 0, true, map[], rows, Zeros(rest), 0);
    PaddingEnds(version, rest, 0, map[0 := rows]);
    EmptyMeaning(version);
  }

  lemma {:induction false} EmptyAccountIsNext(version: nat, n: nat)
    ensures NextAccount(version, Zeros((if version >= 2 then 6 else 5) + n), 0, true)
         == Got(RowsFor(version, NoAccount()), Zeros(n))
  {
    OneAccountRoundTrip(version, NoAccount(), 0, true, [], Zeros(n));
    EmptyStreamLimbs(version, n);
  }

  lemma {:induction false} EmptyStreamLimbs(version: nat, n: nat)
    ensures var vs := [0] + Body(version, NoAccount(), []);
            AllTargets(vs) && Stream(vs, Zeros(n)) == Zeros((if version >= 2 then 6 else 5) + n)
  {
    EmptyBody(version);
    ZeroTargets(if version >= 2 then 6 else 5, n);
  }

  lemma {:induction false} EmptyMeaning(version: nat)
    ensures Interpret(version, RowsFor(version, NoAccount()))
         == Delta(0, 0, None, PoolInfo(0, 0), map[], map[], map[], [])
  {
    RowsMean(version, NoAccount());
    assert SignedKeys([]) == [];
  }

  function NoAccount(): Account {
    Account(0, 0, None, None, [], [], [], [])
  }

  lemma {:induction false} EmptyBody(version: nat)
    ensures [0] + Body(version, NoAccount(), []) == seq(if version >= 2 then 6 else 5, _ => 0)
  {
    GroupsFit(version, NoAccount());
    NoGroups(version);
    EmptyGroups(Format(version, 0), GroupsFor(version, NoAccount()));
    CountedInFormat(version);
  }

  lemma {:induction false} NoGroups(version: nat)
    ensures GroupsFor(version, NoAccount()) == [[[]], [[]], []] + (if version >= 2 then [[]] else []) + [[], []]
  {
  }

  lemma {:induction false} CountedBehind(part: Part, parts: seq<Part>)
    ensures CountedParts([part] + parts) == (if part.Counted? then 1 else 0) + CountedParts(parts)
  {
    assert ([part] + parts)[1..] == parts;
  }

  lemma {:induction false} CountedInFormat(version: nat)
    ensures CountedParts(Format(version, 0)) == if version >= 2 then 4 else 3
  {
    var two := [Counted(2)] + ([Counted(2)] + []);
    var middle := if version >= 2 then [Counted(2)] + two else two;
    CountedBehind(Counted(2), []);
    CountedBehind(Counted(2), [Counted(2)] + []);
    CountedBehind(Counted(2), two);
    CountedBehind(Counted(3), middle);
    CountedBehind(Fixed(0), [Counted(3)] + middle);
    CountedBehind(Fixed(0), [Fixed(0)] + ([Counted(3)] + middle));
    assert Format(version, 0) == [Fixed(0)] + ([Fixed(0)] + ([Counted(3)] + middle));
  }

  /** Empty parts write one zero count each, unless they are fixed. */
  lemma {:induction false} EmptyGroups(parts: seq<Part>, groups: seq<seq<seq<nat>>>)
    requires PartsFit(parts, groups)
    requires forall i :: 0 <= i < |parts| ==> if parts[i].Fixed? then parts[i].count == 0 else groups[i] == []
    ensures WriteParts(parts, groups, []) == seq(CountedParts(parts), _ => 0)
    decreases |parts|
  {
    if parts != [] {
      EmptyGroups(parts[1..], groups[1..]);
    }
  }

  function CountedParts(parts: seq<Part>): nat {
    if parts == [] then 0 else (if parts[0].Counted? then 1 else 0) + CountedParts(parts[1..])
  }

  lemma {:induction false} ZeroTargets(count: nat, n: nat)
    ensures Stream(seq(count, _ => 0), Zeros(n)) == Zeros(count + n)
  {
    if count > 0 {
      var vs := seq(count, _ => 0);
      assert vs[1..] == seq(count - 1, _ => 0);
      ZeroTargets(count - 1, n);
      assert EncodeTarget(0) == [0];
      assert [0] + Zeros(count - 1 + n) == Zeros(count + n);
    }
  }
}
