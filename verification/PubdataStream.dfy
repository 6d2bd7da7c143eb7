/** The nibble stream of published deltas: bytes, 4-bit limbs, and length-prefixed numbers ("targets"). */
module PubdataStream {
  import opened Options

  newtype Byte = x: int | 0 <= x < 256

  type Limb = x: int | 0 <= x < 16

  /** Low nibble first. */
  function Limbs(bytes: seq<Byte>): (limbs: seq<Limb>)
    ensures |limbs| == 2 * |bytes|
  {
    if bytes == [] then []
    else
      var last := bytes[|bytes| - 1] as int;
      Limbs(bytes[..|bytes| - 1]) + [last % 16, last / 16]
  }

  method GetLimbs(bytes: seq<Byte>) returns (limbs: seq<Limb>)
    ensures limbs == Limbs(bytes)
  {
    limbs := [];
    for i := 0 to |bytes|
      invariant limbs == Limbs(bytes[..i])
    {
      assert bytes[..i + 1][..i] == bytes[..i];
      limbs := limbs + [bytes[i] as int % 16];
      limbs := limbs + [bytes[i] as int / 16 % 16];
    }
    assert bytes[..|bytes|] == bytes;
  }

  /** Packs limbs into bytes; an odd one is padded with a zero limb. */
  function Pack(limbs: seq<Limb>): (bytes: seq<Byte>) {
    if limbs == [] then []
    else if |limbs| == 1 then [limbs[0] as Byte]
    else [(limbs[0] as int + 16 * (limbs[1] as int)) as Byte] + Pack(limbs[2..])
  }

  function Zeros(n: nat): (z: seq<Limb>)
    ensures |z| == n
  {
    seq(n, _ => 0)
  }

  lemma {:induction false} LimbsConcat(a: seq<Byte>, b: seq<Byte>)
    ensures Limbs(a + b) == Limbs(a) + Limbs(b)
  {
    if b == [] {
      assert a + b == a;
    } else {
      assert (a + b)[..|a + b| - 1] == a + b[..|b| - 1];
      LimbsConcat(a, b[..|b| - 1]);
    }
  }

  /** Unpacking what was packed gives the limbs back, with one zero limb behind an odd number of them. */
  lemma {:induction false} LimbsOfPack(limbs: seq<Limb>)
    ensures Limbs(Pack(limbs)) == limbs + Zeros(|limbs| % 2)
    decreases |limbs|
  {
    if |limbs| >= 2 {
      var first := (limbs[0] as int + 16 * (limbs[1] as int)) as Byte;
      LimbsConcat([first], Pack(limbs[2..]));
      LimbsOfPack(limbs[2..]);
      OneByte(first, limbs[0], limbs[1]);
    } else if |limbs| == 1 {
      OneByte(limbs[0] as Byte, limbs[0], 0);
    }
  }

  lemma {:induction false} OneByte(b: Byte, low: Limb, high: Limb)
    requires b as int == low + 16 * high
    ensures Limbs([b]) == [low, high]
  {
    assert [b][..0] == [];
    assert Limbs([b][..0]) == [];
  }

  lemma {:induction false} LimbsOfZeroBytes(n: nat)
    ensures Limbs(seq(n, _ => 0 as Byte)) == Zeros(2 * n)
  {
    if n > 0 {
      var z := seq(n, _ => 0 as Byte);
      assert z[..n - 1] == seq(n - 1, _ => 0 as Byte);
      LimbsOfZeroBytes(n - 1);
    }
  }

  // Targets

  /** Targets have at most 15 limbs. */
  const TARGET_BOUND: nat := 0x1000_0000_0000_0000

  /** Hexadecimal digits, most significant first; none for zero. */
  function Digits(v: nat): (ds: seq<Limb>) {
    if v == 0 then [] else Digits(v / 16) + [v % 16]
  }

  function Value(ds: seq<Limb>): nat {
    if ds == [] then 0 else Value(ds[..|ds| - 1]) * 16 + (ds[|ds| - 1] as int)
  }

  function Pow16(n: nat): (r: nat)
    ensures r > 0
  {
    if n == 0 then 1 else 16 * Pow16(n - 1)
  }

  lemma {:induction false} DigitsFit(v: nat, n: nat)
    requires v < Pow16(n)
    ensures |Digits(v)| <= n
  {
    if v > 0 {
      DigitsFit(v / 16, n - 1);
    }
  }

  lemma {:induction false} ValueOfDigits(v: nat)
    ensures Value(Digits(v)) == v
  {
    if v > 0 {
      ValueOfDigits(v / 16);
      assert Digits(v)[..|Digits(v)| - 1] == Digits(v / 16);
    }
  }

  lemma {:induction false} FifteenLimbs()
    ensures Pow16(15) == TARGET_BOUND
  {
    assert Pow16(5) == 0x10_0000;
    assert Pow16(10) == 0x100_0000_0000;
  }

  predicate IsTarget(v: nat) {
    v < TARGET_BOUND
  }

  function EncodeTarget(v: nat): (limbs: seq<Limb>)
    requires IsTarget(v)
  {
    FifteenLimbs();
    DigitsFit(v, 15);
    [|Digits(v)|] + Digits(v)
  }

  datatype Read<+T> = Read(value: T, rest: seq<Limb>)

  /** Reads one target off a stream; None when the stream is too short. */
  function ReadTarget(s: seq<Limb>): (r: Option<Read<nat>>)
    ensures r.Some? ==> |r.value.rest| < |s|
  {
    if s == [] then None
    else
      var n: nat := s[0];
      if |s| < 1 + n then None else Some(Read(Value(s[1..1 + n]), s[1 + n..]))
  }

  predicate AllTargets(vs: seq<nat>) {
    forall i :: 0 <= i < |vs| ==> IsTarget(vs[i])
  }

  /** A list of targets followed by other limbs. */
  function Stream(vs: seq<nat>, tail: seq<Limb>): seq<Limb>
    requires AllTargets(vs)
  {
    if vs == [] then tail else EncodeTarget(vs[0]) + Stream(vs[1..], tail)
  }

  /** Reading returns what was written first, and leaves the rest. */
  lemma {:induction false} ReadFirst(vs: seq<nat>, tail: seq<Limb>)
    requires AllTargets(vs) && vs != []
    ensures ReadTarget(Stream(vs, tail)) == Some(Read(vs[0], Stream(vs[1..], tail)))
  {
    var s, ds, rest := Stream(vs, tail), Digits(vs[0]), Stream(vs[1..], tail);
    ValueOfDigits(vs[0]);
    assert s == [s[0]] + ds + rest && s[0] == |ds|;
    assert s[1..1 + |ds|] == ds && s[1 + |ds|..] == rest;
  }

  /** Zero padding reads as zeros. */
  lemma {:induction false} ReadPadding(n: nat)
    requires n > 0
    ensures ReadTarget(Zeros(n)) == Some(Read(0, Zeros(n - 1)))
  {
    assert Zeros(n)[1..1] == [] && Zeros(n)[1..] == Zeros(n - 1);
  }

  // Rows of targets

  function ReadMany(s: seq<Limb>, n: nat): (r: Option<Read<seq<nat>>>)
    ensures r.Some? ==> |r.value.rest| <= |s| && |r.value.value| == n
    decreases n
  {
    if n == 0 then Some(Read([], s))
    else
      match ReadTarget(s)
      case None => None
      case Some(first) =>
        match ReadMany(first.rest, n - 1)
        case None => None
        case Some(others) => Some(Read([first.value] + others.value, others.rest))
  }

  lemma {:induction false} ReadManyFirst(a: seq<nat>, vs: seq<nat>, tail: seq<Limb>)
    requires AllTargets(a) && AllTargets(vs)
    ensures ReadMany(Stream(a + vs, tail), |a|) == Some(Read(a, Stream(vs, tail)))
  {
    if a == [] {
      assert a + vs == vs;
    } else {
      ReadFirst(a + vs, tail);
      assert (a + vs)[1..] == a[1..] + vs;
      ReadManyFirst(a[1..], vs, tail);
      assert a == [a[0]] + a[1..];
    }
  }

  predicate RowsOf(rows: seq<seq<nat>>, width: nat) {
    forall i :: 0 <= i < |rows| ==> |rows[i]| == width && AllTargets(rows[i])
  }

  function Flat(rows: seq<seq<nat>>): seq<nat> {
    if rows == [] then [] else rows[0] + Flat(rows[1..])
  }

  lemma {:induction false} FlatAllTargets(rows: seq<seq<nat>>, width: nat)
    requires RowsOf(rows, width)
    ensures AllTargets(Flat(rows))
  {
    if rows != [] {
      FlatAllTargets(rows[1..], width);
    }
  }

  function ReadRows(s: seq<Limb>, count: nat, width: nat): (r: Option<Read<seq<seq<nat>>>>)
    ensures r.Some? ==> |r.value.rest| <= |s|
    decreases count
  {
    if count == 0 then Some(Read([], s))
    else
      match ReadMany(s, width)
      case None => None
      case Some(first) =>
        match ReadRows(first.rest, count - 1, width)
        case None => None
        case Some(others) => Some(Read([first.value] + others.value, others.rest))
  }

  lemma {:induction false} ReadRowsFirst(rows: seq<seq<nat>>, width: nat, vs: seq<nat>, tail: seq<Limb>)
    requires RowsOf(rows, width) && AllTargets(Flat(rows)) && AllTargets(vs)
    ensures ReadRows(Stream(Flat(rows) + vs, tail), |rows|, width) == Some(Read(rows, Stream(vs, tail)))
  {
    if rows == [] {
      assert Flat(rows) + vs == vs;
    } else {
      FlatAllTargets(rows[1..], width);
      assert Flat(rows) + vs == rows[0] + (Flat(rows[1..]) + vs);
      ReadManyFirst(rows[0], Flat(rows[1..]) + vs, tail);
      ReadRowsFirst(rows[1..], width, vs, tail);
      assert rows == [rows[0]] + rows[1..];
    }
  }

  /** A counted table of rows. */
  function Table(rows: seq<seq<nat>>): seq<nat> {
    [|rows|] + Flat(rows)
  }

  function ReadTable(s: seq<Limb>, width: nat): (r: Option<Read<seq<seq<nat>>>>)
    ensures r.Some? ==> |r.value.rest| < |s|
  {
    match ReadTarget(s)
    case None => None
    case Some(count) => ReadRows(count.rest, count.value, width)
  }

  lemma {:induction false} ReadTableFirst(rows: seq<seq<nat>>, width: nat, vs: seq<nat>, tail: seq<Limb>)
    requires RowsOf(rows, width) && IsTarget(|rows|) && AllTargets(vs)
    ensures AllTargets(Table(rows) + vs)
    ensures ReadTable(Stream(Table(rows) + vs, tail), width) == Some(Read(rows, Stream(vs, tail)))
  {
    FlatAllTargets(rows, width);
    assert (Table(rows) + vs)[0] == |rows| && (Table(rows) + vs)[1..] == Flat(rows) + vs;
    ReadFirst(Table(rows) + vs, tail);
    ReadRowsFirst(rows, width, vs, tail);
  }

  function Prepend(rows: seq<seq<nat>>, r: Option<Read<seq<seq<nat>>>>): Option<Read<seq<seq<nat>>>> {
    match r
    case None => None
    case Some(read) => if rows == [] then r else Some(Read(rows + read.value, read.rest))
  }

  lemma {:induction false} PrependNext(rows: seq<seq<nat>>, row: seq<nat>, s: seq<Limb>, count: nat, width: nat)
    requires count > 0 && ReadMany(s, width).Some? && ReadMany(s, width).value.value == row
    ensures Prepend(rows, ReadRows(s, count, width))
         == Prepend(rows + [row], ReadRows(ReadMany(s, width).value.rest, count - 1, width))
  {
    var others := ReadRows(ReadMany(s, width).value.rest, count - 1, width);
    if others.Some? {
      assert rows + ([row] + others.value.value) == rows + [row] + others.value.value;
      assert [] + [row] == [row];
    }
  }

  // The decoder object

  class PubdataDecoder {
    var limbs: seq<Limb>
    var offset: nat

    ghost predicate Valid()
      reads this
    {
      offset <= |limbs|
    }

    /** What is still to be read. */
    function Rest(): seq<Limb>
      reads this
      requires offset <= |limbs|
    {
      limbs[offset..]
    }

    constructor (pubData: seq<Byte>)
      ensures Valid() && Rest() == Limbs(pubData)
    {
      var all := GetLimbs(pubData);
      limbs := all;
      offset := 0;
    }

    method GetRemainingLength() returns (n: nat)
      requires Valid()
      ensures n == |Rest()|
    {
      n := |limbs| - offset;
    }

    /** None where the original would index past the end. */
    method DecompressTarget() returns (r: Option<nat>)
      requires Valid()
      modifies this
      ensures Valid()
      ensures match ReadTarget(old(Rest()))
              case None => r == None
              case Some(read) => r == Some(read.value) && Rest() == read.rest
    {
      if offset >= |limbs| { return None; }
      ghost var s := Rest();
      var size: nat := limbs[offset];
      offset := offset + 1;
      if offset + size > |limbs| { return None; }
      var val: nat := 0;
      for i := 0 to size
        invariant limbs == old(limbs) && offset == old(offset) + 1 + i <= |limbs|
        invariant val == Value(s[1..1 + i])
      {
        assert s[1..1 + i + 1][..i] == s[1..1 + i];
        val := val * 16 + (limbs[offset] as int);
        offset := offset + 1;
      }
      return Some(val);
    }

    method ReadRow(width: nat) returns (r: Option<seq<nat>>)
      requires Valid()
      modifies this
      ensures Valid()
      ensures match ReadMany(old(Rest()), width)
              case None => r == None
              case Some(read) => r == Some(read.value) && Rest() == read.rest
    {
      if width == 0 { return Some([]); }
      var first := DecompressTarget();
      if first == None { return None; }
      var others := ReadRow(width - 1);
      if others == None { return None; }
      return Some([first.value] + others.value);
    }

    /** One counted loop over rows of a fixed number of targets. */
    method ReadCounted(width: nat) returns (r: Option<seq<seq<nat>>>)
      requires Valid()
      modifies this
      ensures Valid()
      ensures match ReadTable(old(Rest()), width)
              case None => r == None
              case Some(read) => r == Some(read.value) && Rest() == read.rest
    {
      var count := DecompressTarget();
      if count == None { return None; }
      ghost var s := Rest();
      var rows: seq<seq<nat>> := [];
      for i := 0 to count.value
        invariant Valid() && |rows| == i
        invariant ReadRows(s, count.value, width) == Prepend(rows, ReadRows(Rest(), count.value - i, width))
      {
        ghost var here := Rest();
        var row := ReadRow(width);
        if row == None { return None; }
        PrependNext(rows, row.value, here, count.value - i, width);
        rows := rows + [row.value];
      }
      assert rows + [] == rows;
      return Some(rows);
    }
  }
}
