/** How single deltas are packed into targets, and unpacked again with the decoder's bit operations and
    integer conversions.
 */
module PubdataFields {
  import opened PubdataStream
  import opened Shifts

  const BITS_48: nat := 0x1_0000_0000_0000
  const BITS_56: nat := 0x100_0000_0000_0000
  const BITS_60: nat := 0x1000_0000_0000_0000
  const BITS_63: nat := 0x8000_0000_0000_0000
  const BITS_64: nat := 0x1_0000_0000_0000_0000

  const MAX_ACCOUNT_INDEX: nat := 281474976710654

  /** Conversion of a 64-bit pattern to a signed integer. */
  function Int64(x: nat): int {
    var low := x % BITS_64;
    if low < BITS_63 then low else low - BITS_64
  }

  function Int16(x: nat): int {
    var low := x % 0x1_0000;
    if low < 0x8000 then low else low - 0x1_0000
  }

  /** A conversion is two's complement: the one number of the width's range that differs from the pattern by a
      multiple of the modulus. */
  lemma {:induction false} Int64Wraps(x: nat, y: int)
    ensures Int64(x) == y <==>
            -0x8000_0000_0000_0000 <= y < 0x8000_0000_0000_0000 && (x - y) % 0x1_0000_0000_0000_0000 == 0
  {
    var q, k := x / BITS_64, (x - y) / BITS_64;
    assert x == BITS_64 * q + x % BITS_64;
    assert x - y == BITS_64 * k + (x - y) % BITS_64;
  }

  lemma {:induction false} Int16Wraps(x: nat, y: int)
    ensures Int16(x) == y <==> -0x8000 <= y < 0x8000 && (x - y) % 0x1_0000 == 0
  {
    var q, k := x / 0x1_0000, (x - y) / 0x1_0000;
    assert x == 0x1_0000 * q + x % 0x1_0000;
    assert x - y == 0x1_0000 * k + (x - y) % 0x1_0000;
  }

  /** Negation of a 64-bit integer; the least one is its own negation. */
  function Signed(negative: bool, x: int): int {
    if negative && x != -0x8000_0000_0000_0000 then -x else x
  }

  function Magnitude(x: int): nat {
    if x < 0 then -x else x
  }

  function SignBit(x: int): nat {
    if x < 0 then 1 else 0
  }

  /** Bitwise or. */
  function Or(a: nat, b: nat): nat {
    if a == 0 then b
    else if b == 0 then a
    else 2 * Or(a / 2, b / 2) + (if a % 2 == 1 || b % 2 == 1 then 1 else 0)
  }

  predicate Bit(x: nat, k: nat) {
    if k == 0 then x % 2 == 1 else Bit(x / 2, k - 1)
  }

  /** A bit is set in the result exactly when it is set on either side. */
  lemma {:induction false} OrIsBitwise(a: nat, b: nat, k: nat)
    ensures Bit(Or(a, b), k) <==> Bit(a, k) || Bit(b, k)
  {
    if a == 0 || b == 0 {
      ZeroHasNoBits(k);
    } else if k > 0 {
      OrIsBitwise(a / 2, b / 2, k - 1);
    }
  }

  lemma {:induction false} ZeroHasNoBits(k: nat)
    ensures !Bit(0, k)
  {
    if k > 0 {
      ZeroHasNoBits(k - 1);
    }
  }

  /** Or-ing into cleared low bits is addition. */
  lemma {:induction false} OrDisjoint(high: nat, low: nat, bits: nat)
    requires low < ShiftLeft(1, bits)
    ensures Or(ShiftLeft(high, bits), low) == ShiftLeft(high, bits) + low
  {
    if bits > 0 {
      OrDisjoint(high, low / 2, bits - 1);
      if ShiftLeft(high, bits) != 0 && low != 0 {
        assert ShiftLeft(high, bits) / 2 == ShiftLeft(high, bits - 1);
      }
    }
  }

  lemma {:induction false} Shift48(x: nat)
    ensures ShiftLeft(x, 48) == x * BITS_48 && ShiftLeft(1, 48) == BITS_48
  {
    ShiftLeftIsTimes(x, 48);
    assert ShiftLeft(1, 12) == 0x1000;
    ShiftLeftSums(12, 12);
    ShiftLeftSums(24, 24);
  }

  lemma {:induction false} Shift60(x: nat)
    ensures ShiftLeft(x, 60) == x * BITS_60 && ShiftLeft(1, 60) == BITS_60
  {
    ShiftLeftIsTimes(x, 60);
    Shift48(1);
    assert ShiftLeft(1, 12) == 0x1000;
    ShiftLeftSums(12, 48);
  }

  /** Magnitude and sign bit determine a number. */
  lemma {:induction false} SignRestored(x: int)
    requires Magnitude(x) < BITS_63
    ensures Signed(SignBit(x) == 1, Int64(Magnitude(x))) == x
    ensures SignBit(x) < 2
  {
  }

  // Positions

  datatype Position = Position(size: int, funding: int)

  function PackPosition(market: nat, p: Position): seq<nat> {
    [market + 256 * (Magnitude(p.funding) / BITS_60),
     Magnitude(p.funding) % BITS_60,
     4 * Magnitude(p.size) + 2 * SignBit(p.size) + SignBit(p.funding)]
  }

  /** The market index and the position of a row; only the low four carry bits survive the 64-bit shift. */
  function UnpackPosition(row: seq<nat>): (nat, Position)
    requires |row| == 3
  {
    var carry := row[0] / 256 % 16;
    var funding := Or(ShiftLeft(carry, 60), row[1]);
    (row[0] % 256,
     Position(Signed(row[2] / 2 % 2 == 1, Int64(row[2] / 4)), Signed(row[2] % 2 == 1, Int64(funding))))
  }

  predicate PositionFits(market: nat, p: Position) {
    market < 256 && Magnitude(p.funding) < BITS_63 && Magnitude(p.size) < BITS_60 / 4
  }

  lemma {:induction false} PositionRoundTrip(market: nat, p: Position)
    requires PositionFits(market, p)
    ensures AllTargets(PackPosition(market, p))
    ensures UnpackPosition(PackPosition(market, p)) == (market, p)
  {
    FundingRoundTrip(market, Magnitude(p.funding));
    FlagsRoundTrip(Magnitude(p.size), SignBit(p.size), SignBit(p.funding));
    SignRestored(p.size);
    SignRestored(p.funding);
  }

  /** The bits of a funding rate from 60 up ride on the market index. */
  lemma {:induction false} FundingRoundTrip(market: nat, f: nat)
    requires market < 256 && f < BITS_63
    ensures var field := market + 256 * (f / BITS_60);
            && field % 256 == market && IsTarget(field) && IsTarget(f % BITS_60)
            && Or(ShiftLeft(field / 256 % 16, 60), f % BITS_60) == f
  {
    var high, low := f / BITS_60, f % BITS_60;
    assert high < 8;
    CarryField(market, high);
    Shift60(high);
    OrDisjoint(high, low, 60);
  }

  lemma {:induction false} CarryField(market: nat, carry: nat)
    requires market < 256 && carry < 16
    ensures var field := market + 256 * carry;
            field / 256 % 16 == carry && field % 256 == market && IsTarget(field)
  {
    assert (market + 256 * carry) / 256 == carry;
  }

  lemma {:induction false} FlagsRoundTrip(size: nat, sizeNegative: nat, fundingNegative: nat)
    requires size < BITS_60 / 4 && sizeNegative < 2 && fundingNegative < 2
    ensures var field := 4 * size + 2 * sizeNegative + fundingNegative;
            && IsTarget(field) && field / 4 == size
            && field / 2 % 2 == sizeNegative && field % 2 == fundingNegative
  {
    assert (4 * size + 2 * sizeNegative + fundingNegative) / 2 == 2 * size + sizeNegative;
  }

  // Binary options positions

  function PackOption(market: nat, size: int): seq<nat> {
    [market, 2 * Magnitude(size) + SignBit(size)]
  }

  function UnpackOption(row: seq<nat>): (int, int)
    requires |row| == 2
  {
    (Int16(row[0]), Signed(row[1] % 2 == 1, Int64(row[1] / 2)))
  }

  predicate OptionFits(market: nat, size: int) {
    market < 0x8000 && Magnitude(size) < BITS_60 / 2
  }

  lemma {:induction false} OptionRoundTrip(market: nat, size: int)
    requires OptionFits(market, size)
    ensures AllTargets(PackOption(market, size))
    ensures UnpackOption(PackOption(market, size)) == (market, size)
  {
  }

  // Assets

  function PackAsset(asset: nat, balance: int): seq<nat> {
    [asset + 64 * SignBit(balance) + 128 * (Magnitude(balance) % BITS_48), Magnitude(balance) / BITS_48]
  }

  function UnpackAsset(row: seq<nat>): (nat, int)
    requires |row| == 2
  {
    (row[0] % 64, Signed(row[0] / 64 % 2 == 1, Or(ShiftLeft(row[1], 48), row[0] / 128)))
  }

  predicate AssetFits(asset: nat, balance: int) {
    asset < 64 && Magnitude(balance) / BITS_48 < BITS_60
  }

  lemma {:induction false} AssetRoundTrip(asset: nat, balance: int)
    requires AssetFits(asset, balance)
    ensures AllTargets(PackAsset(asset, balance))
    ensures UnpackAsset(PackAsset(asset, balance)) == (asset, balance)
  {
    var high, low := Magnitude(balance) / BITS_48, Magnitude(balance) % BITS_48;
    AssetFieldRoundTrip(asset, SignBit(balance), low);
    Shift48(high);
    OrDisjoint(high, low, 48);
  }

  lemma {:induction false} AssetFieldRoundTrip(asset: nat, negative: nat, low: nat)
    requires asset < 64 && negative < 2 && low < BITS_48
    ensures var field := asset + 64 * negative + 128 * low;
            IsTarget(field) && field % 64 == asset && field / 64 % 2 == negative && field / 128 == low
  {
    assert (asset + 64 * negative + 128 * low) / 64 == negative + 2 * low;
  }

  // Pool shares

  datatype Share = Share(pool: int, amount: int)

  function PackShare(s: Share): seq<nat> {
    [2 * Magnitude(MAX_ACCOUNT_INDEX - s.pool) + SignBit(s.amount), Magnitude(s.amount)]
  }

  function UnpackShare(row: seq<nat>): Share
    requires |row| == 2
  {
    Share(MAX_ACCOUNT_INDEX - Int64(row[0] / 2), Signed(row[0] % 2 == 1, Int64(row[1])))
  }

  predicate ShareFits(s: Share) {
    0 <= s.pool <= MAX_ACCOUNT_INDEX && Magnitude(s.amount) < BITS_60
  }

  lemma {:induction false} ShareRoundTrip(s: Share)
    requires ShareFits(s)
    ensures AllTargets(PackShare(s)) && UnpackShare(PackShare(s)) == s
  {
  }

  // Pool info

  datatype PoolInfo = PoolInfo(total: int, operator: int)

  function PackPool(p: PoolInfo): seq<nat> {
    [2 * SignBit(p.total) + SignBit(p.operator), Magnitude(p.total), Magnitude(p.operator)]
  }

  function UnpackPool(row: seq<nat>): PoolInfo
    requires |row| == 3
  {
    PoolInfo(Signed(row[0] / 2 % 2 == 1, Int64(row[1])), Signed(row[0] % 2 == 1, Int64(row[2])))
  }

  predicate PoolFits(p: PoolInfo) {
    Magnitude(p.total) < BITS_60 && Magnitude(p.operator) < BITS_60
  }

  lemma {:induction false} PoolRoundTrip(p: PoolInfo)
    requires PoolFits(p)
    ensures AllTargets(PackPool(p)) && UnpackPool(PackPool(p)) == p
  {
  }

  // Addresses

  /** Little-endian bytes of a number. */
  function ToBytes(x: nat, n: nat): (bytes: seq<Byte>)
    ensures |bytes| == n
  {
    if n == 0 then [] else [(x % 256) as Byte] + ToBytes(x / 256, n - 1)
  }

  function FromBytes(bytes: seq<Byte>): nat {
    if bytes == [] then 0 else bytes[0] as int + 256 * FromBytes(bytes[1..])
  }

  lemma {:induction false} BytesRoundTrip(bytes: seq<Byte>)
    ensures ToBytes(FromBytes(bytes), |bytes|) == bytes
  {
    if bytes != [] {
      BytesRoundTrip(bytes[1..]);
    }
  }

  lemma {:induction false} SevenBytesFit(bytes: seq<Byte>)
    requires |bytes| <= 7
    ensures FromBytes(bytes) < BITS_56
  {
    BytesFit(bytes, 7);
    Shift56();
  }

  lemma {:induction false} Shift56()
    ensures ShiftLeft(1, 56) == BITS_56
  {
    assert ShiftLeft(1, 14) == 0x4000;
    ShiftLeftSums(14, 14);
    ShiftLeftSums(28, 28);
  }

  lemma {:induction false} BytesFit(bytes: seq<Byte>, n: nat)
    requires |bytes| <= n
    ensures FromBytes(bytes) < ShiftLeft(1, 8 * n)
  {
    if bytes != [] {
      BytesFit(bytes[1..], n - 1);
      EightMore(8 * n - 8);
    }
  }

  lemma {:induction false} EightMore(bits: nat)
    ensures ShiftLeft(1, bits + 8) == 256 * ShiftLeft(1, bits)
  {
    ShiftLeftSums(8, bits);
    assert ShiftLeft(1, 8) == 256;
  }

  function Reversed(bytes: seq<Byte>): (r: seq<Byte>)
    ensures |r| == |bytes|
  {
    seq(|bytes|, i requires 0 <= i < |bytes| => bytes[|bytes| - 1 - i])
  }

  /** Twenty address bytes, reversed, in chunks of seven, seven and six. */
  function PackAddress(address: seq<Byte>): seq<nat>
    requires |address| == 20
  {
    var r := Reversed(address);
    [FromBytes(r[..7]), FromBytes(r[7..14]), FromBytes(r[14..])]
  }

  function UnpackAddress(row: seq<nat>): seq<Byte>
    requires |row| == 3
  {
    Reversed(ToBytes(row[0], 7) + ToBytes(row[1], 7) + ToBytes(row[2], 7)[..6])
  }

  lemma {:induction false} SixOfSeven(x: nat)
    ensures ToBytes(x, 7)[..6] == ToBytes(x, 6)
  {
    ToBytesPrefix(x, 6);
  }

  lemma {:induction false} ToBytesPrefix(x: nat, n: nat)
    ensures ToBytes(x, n + 1)[..n] == ToBytes(x, n)
  {
    if n > 0 {
      ToBytesPrefix(x / 256, n - 1);
    }
  }

  lemma {:induction false} AddressRoundTrip(address: seq<Byte>)
    requires |address| == 20
    ensures AllTargets(PackAddress(address)) && UnpackAddress(PackAddress(address)) == address
  {
    var r := Reversed(address);
    LongChunkRoundTrip(r[..7]);
    LongChunkRoundTrip(r[7..14]);
    ShortChunkRoundTrip(r[14..]);
    assert r[..7] + r[7..14] + r[14..] == r;
    assert Reversed(r) == address;
  }

  lemma {:induction false} LongChunkRoundTrip(bytes: seq<Byte>)
    requires |bytes| == 7
    ensures IsTarget(FromBytes(bytes)) && ToBytes(FromBytes(bytes), 7) == bytes
  {
    ChunkRoundTrip(bytes);
  }

  lemma {:induction false} ShortChunkRoundTrip(bytes: seq<Byte>)
    requires |bytes| == 6
    ensures IsTarget(FromBytes(bytes)) && ToBytes(FromBytes(bytes), 7)[..6] == bytes
  {
    ChunkRoundTrip(bytes);
    SixOfSeven(FromBytes(bytes));
  }

  lemma {:induction false} ChunkRoundTrip(bytes: seq<Byte>)
    requires |bytes| <= 7
    ensures IsTarget(FromBytes(bytes)) && ToBytes(FromBytes(bytes), |bytes|) == bytes
  {
    SevenBytesFit(bytes);
    BytesRoundTrip(bytes);
  }

  // Markets

  datatype Market = Market(index: int, status: nat, price: nat, settlementCap: nat, quoteExtensionMultiplier: int)

  /** The public market index is published with a market, and skipped by the decoder. */
  function PackMarket(version: nat, m: Market, publicIndex: nat): seq<nat>
    requires 0 <= m.index && 0 <= m.quoteExtensionMultiplier
  {
    if version >= 2
    then [m.price * 0x4000 + m.status * 0x1000 + m.index, publicIndex, m.settlementCap, m.quoteExtensionMultiplier]
    else [m.status * 0x1000 + m.index, publicIndex]
  }

  function MarketWidth(version: nat): nat {
    if version >= 2 then 4 else 2
  }

  function UnpackMarket(version: nat, row: seq<nat>): Market
    requires |row| == MarketWidth(version)
  {
    if version >= 2
    then Market(row[0] % 0x1000, row[0] / 0x1000 % 4, row[0] / 0x4000 % 0x1_0000_0000, row[2] % 0x1_0000_0000,
                Int64(row[3]))
    else Market(row[0] % 0x1000, row[0] / 0x1000 % 2, 0, 0, 0)
  }

  predicate MarketFits(version: nat, m: Market, publicIndex: nat) {
    && 0 <= m.index < 0x1000 && IsTarget(publicIndex)
    && if version >= 2
       then m.status < 4 && m.price < 0x1_0000_0000 && m.settlementCap < 0x1_0000_0000
            && 0 <= m.quoteExtensionMultiplier < BITS_60
       else m.status < 2 && m.price == 0 && m.settlementCap == 0 && m.quoteExtensionMultiplier == 0
  }

  lemma {:induction false} MarketRoundTrip(version: nat, m: Market, publicIndex: nat)
    requires MarketFits(version, m, publicIndex)
    ensures AllTargets(PackMarket(version, m, publicIndex))
    ensures |PackMarket(version, m, publicIndex)| == MarketWidth(version)
    ensures UnpackMarket(version, PackMarket(version, m, publicIndex)) == m
  {
    MarketFieldRoundTrip(m.price, m.status, m.index);
  }

  lemma {:induction false} MarketFieldRoundTrip(price: nat, status: nat, index: nat)
    requires price < 0x1_0000_0000 && status < 4 && index < 0x1000
    ensures var field := price * 0x4000 + status * 0x1000 + index;
            && IsTarget(field) && field % 0x1000 == index && field / 0x1000 % 4 == status && field / 0x4000 == price
  {
    assert (price * 0x4000 + status * 0x1000 + index) / 0x1000 == price * 4 + status;
  }
}
