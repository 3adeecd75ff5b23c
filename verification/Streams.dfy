/**
 A stream of bytes, and integers of variable length in it.
 */
module Streams {
  import opened Common
  import opened Limbs

  /** What reading a value gives: the value and the bytes left over, or None where the program throws. */
  type Parsed<T> = Option<(T, Bytes)>

  class Stream {
    var data: Bytes

    constructor (data: Bytes)
      ensures this.data == data
    {
      this.data := data;
    }

    method Write(b: Bytes)
      modifies this
      ensures data == old(data) + b
    {
      data := data + b;
    }

    method Read(n: nat) returns (r: Option<Bytes>)
      modifies this
      ensures r == if n <= old(|data|) then Some(old(data[..n])) else None
      ensures data == if r.Some? then old(data[n..]) else old(data)
    {
      if n > |data| { return None; }
      r := Some(data[..n]);
      data := data[n..];
    }
  }

  /** The bytes of an integer; a negative one has only its low seven bits written. */
  function VarInt(n: int, more: bool): Bytes
    decreases if n < 0 then 0 else n
  {
    if n <= 127 then [LowByte(n, more)] else VarInt(n / 128 - 1, true) + [LowByte(n, more)]
  }

  /** Reading an integer of a type with `limit` values, some of its high bits read already. */
  function ReadVarInt(acc: nat, s: Bytes, limit: nat): Parsed<nat>
    requires limit > 0
    decreases |s|
  {
    if s == [] then None else
    var n := Wrapped(acc * 128, limit) + s[0] % 128;
    if s[0] >= 128 then ReadVarInt(Wrapped(n + 1, limit), s[1..], limit) else Some((n, s[1..]))
  }

  /** What a type with `limit` values keeps of a number. */
  function Wrapped(n: nat, limit: nat): (r: nat)
    requires limit > 0
    ensures r < limit && (n < limit ==> r == n)
  {
    DivDefinition(n, limit);
    if n < limit then DivUnique(n, limit, 0, n); n % limit else n % limit
  }

  lemma ReadByte(acc: nat, b: Byte, rest: Bytes, limit: nat)
    requires acc * 128 + b % 128 + 1 < limit || (b < 128 && acc * 128 + b < limit)
    ensures var n := acc * 128 + b % 128;
            ReadVarInt(acc, [b] + rest, limit) == if b >= 128 then ReadVarInt(n + 1, rest, limit) else Some((n, rest))
  {
    assert ([b] + rest)[1..] == rest;
  }

  lemma {:induction false} LeadingBytes(n: nat, rest: Bytes, limit: nat)
    requires n + 1 < limit
    ensures ReadVarInt(0, VarInt(n, true) + rest, limit) == ReadVarInt(n + 1, rest, limit)
  {
    hide VarInt, ReadVarInt;
    VarIntUnfold(n, true);
    var low := n % 128 + 128;
    if n <= 127 {
      assert VarInt(n, true) == [low];
      ReadByte(0, low, rest, limit);
    } else {
      var hi := n / 128 - 1;
      assert VarInt(hi, true) + [low] + rest == VarInt(hi, true) + ([low] + rest);
      LeadingBytes(hi, [low] + rest, limit);
      ReadByte(hi + 1, low, rest, limit);
    }
  }

  /** An integer of the type is read back, and exactly its bytes are consumed. */
  lemma VarIntRoundTrip(n: nat, rest: Bytes, limit: nat)
    requires n < limit
    ensures ReadVarInt(0, VarInt(n, false) + rest, limit) == Some((n, rest))
  {
    hide VarInt, ReadVarInt;
    VarIntUnfold(n, false);
    var low := n % 128;
    if n <= 127 {
      assert VarInt(n, false) == [low];
      ReadByte(0, low, rest, limit);
    } else {
      var hi := n / 128 - 1;
      assert VarInt(hi, true) + [low] + rest == VarInt(hi, true) + ([low] + rest);
      LeadingBytes(hi, [low] + rest, limit);
      ReadByte(hi + 1, low, rest, limit);
    }
  }

  lemma {:induction false} ReadVarIntBound(acc: nat, s: Bytes, limit: nat)
    requires limit == LIMIT32 || limit == LIMIT64
    ensures var r := ReadVarInt(acc, s, limit); r.Some? ==> r.value.0 < limit
    decreases |s|
  {
    if s != [] {
      assert Wrapped(acc * 128, limit) + 128 <= limit by { WrappedMultiple(acc, limit); }
      var n := Wrapped(acc * 128, limit) + s[0] % 128;
      if s[0] >= 128 { hide Wrapped; ReadVarIntBound(Wrapped(n + 1, limit), s[1..], limit); }
    }
  }

  lemma WrappedMultiple(a: nat, limit: nat)
    requires limit == LIMIT32 || limit == LIMIT64
    ensures Wrapped(a * 128, limit) + 128 <= limit
  {
  }

  /** A 32-bit pattern as a signed integer. */
  function Signed(x: nat): int { if x < 0x8000_0000 then x else x - LIMIT32 }

  /** The one number of 32 bits, with a sign, that differs from it by a multiple of 2^32. */
  lemma SignedExactly(x: nat, n: int)
    requires x < 4294967296
    ensures Signed(x) == n <==> -2147483648 <= n < 2147483648 && (n == x || n + 4294967296 == x)
  {
  }

  function ReadSigned(s: Bytes): Parsed<int> {
    match ReadVarInt(0, s, LIMIT32)
    case None => None
    case Some((n, rest)) => Some((Signed(n), rest))
  }

  /** A signed integer is read back exactly if it was not negative; either way its bytes are consumed. */
  lemma SignedRoundTrip(n: int, rest: Bytes)
    requires -0x8000_0000 <= n < 0x8000_0000
    ensures var r := ReadSigned(VarInt(n, false) + rest);
            r.Some? && r.value.1 == rest && (r.value.0 == n <==> n >= 0)
  {
    if n >= 0 {
      VarIntRoundTrip(n, rest, LIMIT32);
    } else {
      VarIntRoundTrip(n % 128, rest, LIMIT32);
      assert VarInt(n, false) == [n % 128] == VarInt(n % 128, false);
    }
  }

  /** Seven bits a byte are enough. */
  lemma {:induction false} VarIntLength(n: nat, more: bool, k: nat)
    requires k > 0 && n < Pow(128, k)
    ensures |VarInt(n, more)| <= k
  {
    if n > 127 {
      assert Pow(128, 1) == 128;
      assert k > 1;
      VarIntLength(n / 128 - 1, true, k - 1);
    }
  }

  lemma TempFits(n: int, bits: nat)
    requires (bits == 32 && n < LIMIT32) || (bits == 64 && n < LIMIT64)
    ensures |VarInt(n, false)| <= (bits + 6) / 7
  {
    if n >= 0 {
      assert Pow(128, 5) == 0x8_0000_0000;
      PowAdd(128, 5, 5);
      VarIntLength(n, false, (bits + 6) / 7);
    }
  }

  /** The lowest seven bits, marked unless they are the last. */
  function LowByte(n: int, more: bool): Byte { n % 128 + (if more then 128 else 0) }

  method WriteVarInt(s: Stream, n: int, bits: nat)
    requires (bits == 32 && n < LIMIT32) || (bits == 64 && n < LIMIT64)
    modifies s
    ensures s.data == old(s.data) + VarInt(n, false)
  {
    hide VarInt, LowByte, Backwards;
    TempFits(n, bits);
    BackwardsNone();
    var tmp := new Byte[(bits + 6) / 7](i => 0);
    assert tmp[..0] == [];
    var len, m := 0, n;
    while true
      invariant len < tmp.Length && len + |VarInt(m, len > 0)| <= tmp.Length && fresh(tmp) && s.data == old(s.data)
      invariant VarInt(n, false) == VarInt(m, len > 0) + Backwards(tmp[..len])
      decreases if m < 0 then 0 else m
    {
      VarIntUnfold(m, len > 0);
      tmp[len] := LowByte(m, len > 0);
      assert tmp[..len + 1] == tmp[..len] + [tmp[len]];
      BackwardsSnoc(tmp[..len], tmp[len]);
      if m <= 0x7F { break; }
      m := m / 128 - 1;
      len := len + 1;
    }
    assert VarInt(n, false) == Backwards(tmp[..len + 1]);
    WriteBackwards(s, tmp, len);
  }

  /** The bytes of a buffer from `last` down to the first. */
  method WriteBackwards(s: Stream, tmp: array<Byte>, last: nat)
    requires last < tmp.Length
    modifies s
    ensures s.data == old(s.data) + Backwards(tmp[..last + 1])
  {
    hide Backwards;
    var len := last;
    BackwardsNone();
    BackwardsSnoc(tmp[..len], tmp[len]);
    assert tmp[..len + 1] == tmp[..len] + [tmp[len]];
    s.Write([tmp[len]]);
    while len > 0
      invariant 0 <= len < tmp.Length
      invariant s.data + Backwards(tmp[..len]) == old(s.data) + Backwards(tmp[..last + 1])
    {
      len := len - 1;
      BackwardsSnoc(tmp[..len], tmp[len]);
      assert tmp[..len + 1] == tmp[..len] + [tmp[len]];
      s.Write([tmp[len]]);
    }
    assert tmp[..0] == [];
  }

  function Backwards(s: Bytes): Bytes { seq(|s|, i requires 0 <= i < |s| => s[|s| - 1 - i]) }

  lemma BackwardsSnoc(s: Bytes, x: Byte)
    ensures Backwards(s + [x]) == [x] + Backwards(s)
  {
  }

  lemma BackwardsNone()
    ensures Backwards([]) == []
  {
  }

  lemma VarIntUnfold(n: int, more: bool)
    ensures VarInt(n, more) == (if n <= 127 then [] else VarInt(n / 128 - 1, true)) + [LowByte(n, more)]
    ensures |VarInt(n, more)| == (if n <= 127 then 0 else |VarInt(n / 128 - 1, true)|) + 1
    ensures |VarInt(n / 128 - 1, true)| >= 1
  {
  }

  method TakeVarInt(s: Stream, limit: nat) returns (r: Option<nat>)
    requires limit > 0
    modifies s
    ensures match ReadVarInt(0, old(s.data), limit)
            case None => r == None
            case Some((n, rest)) => r == Some(n) && s.data == rest
  {
    var n: nat := 0;
    while true
      invariant ReadVarInt(n, s.data, limit) == ReadVarInt(0, old(s.data), limit)
      decreases |s.data|
    {
      var ch := s.Read(1);
      if ch.None? { return None; }
      var chData := ch.value[0];
      n := Wrapped(n * 128, limit) + chData % 128;
      if chData >= 128 { n := Wrapped(n + 1, limit); } else { return Some(n); }
    }
  }
}
