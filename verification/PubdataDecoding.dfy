/** The decoder's loop: market deltas first, then accounts until the stream ends. */
module PubdataDecoding {
  import opened Options
  import opened PubdataStream
  import opened PubdataFields
  import opened PubdataDeltas

  method ReadGroup(d: PubdataDecoder, part: Part) returns (r: Option<seq<seq<nat>>>)
    requires d.Valid()
    modifies d
    ensures d.Valid()
    ensures match ReadPart(old(d.Rest()), part)
            case None => r == None
            case Some(read) => r == Some(read.value) && d.Rest() == read.rest
  {
    if part.Counted? {
      r := d.ReadCounted(part.width);
    } else {
      var row := d.ReadRow(part.count);
      r := if row == None then None else Some([row.value]);
    }
  }

  method ReadGroups(d: PubdataDecoder, parts: seq<Part>) returns (r: Option<seq<seq<seq<nat>>>>)
    requires d.Valid()
    modifies d
    ensures d.Valid()
    ensures match ReadParts(old(d.Rest()), parts)
            case None => r == None
            case Some(read) => r == Some(read.value) && d.Rest() == read.rest
    decreases |parts|
  {
    if parts == [] { return Some([]); }
    var first := ReadGroup(d, parts[0]);
    if first == None { return None; }
    var others := ReadGroups(d, parts[1..]);
    if others == None { return None; }
    return Some([first.value] + others.value);
  }

  method ReadAccountBody(d: PubdataDecoder, version: nat, index: int) returns (r: Option<Rows>)
    requires d.Valid()
    modifies d
    ensures d.Valid()
    ensures match ReadBody(version, old(d.Rest()), index)
            case None => r == None
            case Some(read) => r == Some(read.value) && d.Rest() == read.rest
  {
    var flags := d.DecompressTarget();
    if flags == None { return None; }
    var groups := ReadGroups(d, Format(version, flags.value));
    if groups == None { return None; }
    return Some(Rows(index, flags.value, groups.value));
  }

  /** One round of the account loop. */
  method ReadNextAccount(d: PubdataDecoder, version: nat, last: int, first: bool) returns (next: Next)
    requires d.Valid()
    modifies d
    ensures d.Valid() && next == NextAccount(version, old(d.Rest()), last, first)
    ensures next.Got? ==> d.Rest() == next.rest
  {
    var remaining := d.GetRemainingLength();
    if remaining <= 1 { return Ended; }
    var diff := d.DecompressTarget();
    if diff == None { return TooShort; }
    if diff.value == 0 && !first { return Ended; }
    var rows := ReadAccountBody(d, version, last + Int64(diff.value));
    if rows == None { return TooShort; }
    return Got(rows.value, d.Rest());
  }

  method ReadAllAccounts(d: PubdataDecoder, version: nat) returns (r: Option<map<int, Rows>>)
    requires d.Valid()
    modifies d
    ensures r == ReadAccounts(version, old(d.Rest()), 0, true, map[])
  {
    var read: map<int, Rows> := map[];
    var last, first := 0, true;
    while true
      invariant d.Valid()
      invariant ReadAccounts(version, d.Rest(), last, first, read)
             == ReadAccounts(version, old(d.Rest()), 0, true, map[])
      decreases |d.Rest()|
    {
      ghost var s := d.Rest();
      var next := ReadNextAccount(d, version, last, first);
      if next == Ended { return Some(read); }
      if next == TooShort { return None; }
      GoOn(version, s, last, first, read, next.rows, next.rest);
      read := read[next.rows.index := next.rows];
      last, first := next.rows.index, false;
    }
  }

  /** The decoder computes exactly `Decode`; None stands for running past the end of the data. */
  method BytesToDeltas(version: nat, compressed: seq<Byte>) returns (r: Option<Deltas>)
    ensures r == Decode(version, Limbs(compressed))
  {
    var d := new PubdataDecoder(compressed);
    var markets: seq<Market> := [];
    if version >= 1 {
      var rows := d.ReadCounted(MarketWidth(version));
      if rows == None { return None; }
      markets := MarketsOf(version, rows.value);
    }
    var accounts := ReadAllAccounts(d, version);
    if accounts == None { return None; }
    return Some(Deltas(markets, InterpretAll(version, accounts.value)));
  }
}
