/**
 The serialized form of unspent outputs: a header code, a bit mask without its trailing
 zero bytes, and the outputs that are not spent.
 */
module CoinsCodec {
  import opened Common
  import opened Limbs
  import opened Streams
  import opened Compressor
  import opened CoinsLayers

  // ---------------------------------------------------------------- bits

  function Bit(b: bool): nat { if b then 1 else 0 }

  /** The number with the given bits, lowest first. */
  function FromBits(s: seq<bool>): nat {
    if s == [] then 0 else Bit(s[0]) + 2 * FromBits(s[1..])
  }

  function BitsOf(n: nat, k: nat): (s: seq<bool>)
    ensures |s| == k
  {
    if k == 0 then [] else [n % 2 == 1] + BitsOf(n / 2, k - 1)
  }

  lemma {:induction false} BitsBack(s: seq<bool>)
    ensures BitsOf(FromBits(s), |s|) == s
  {
    if s != [] { BitsBack(s[1..]); }
  }

  lemma {:induction false} BitsBound(s: seq<bool>)
    ensures FromBits(s) < Pow(2, |s|)
  {
    if s != [] { BitsBound(s[1..]); }
  }

  lemma {:induction false} BitsSnoc(s: seq<bool>, b: bool)
    ensures FromBits(s + [b]) == FromBits(s) + Bit(b) * Pow(2, |s|)
  {
    if s != [] {
      assert (s + [b])[1..] == s[1..] + [b];
      BitsSnoc(s[1..], b);
    }
  }

  lemma {:induction false} BitsZero(s: seq<bool>)
    ensures FromBits(s) == 0 <==> forall i :: 0 <= i < |s| ==> !s[i]
  {
    if s != [] {
      BitsZero(s[1..]);
      assert forall i :: 0 < i < |s| ==> s[i] == s[1..][i - 1];
    }
  }

  lemma {:induction false} BitAt(n: nat, k: nat, p: nat)
    requires p < k
    ensures (BitsOf(n, k)[p] <==> (n / Pow(2, p)) % 2 == 1)
  {
    if p > 0 {
      BitAt(n / 2, k - 1, p - 1);
      DivDiv(n, 2, Pow(2, p - 1));
    }
  }

  // ---------------------------------------------------------------- the mask

  predicate IsAvailable(vout: seq<TxOut>, i: nat) { i < |vout| && vout[i].Out? }

  /** The availability of eight outputs; the first two outputs are not in the mask. */
  function Eight(vout: seq<TxOut>, b: nat): (s: seq<bool>)
    ensures |s| == 8
  {
    seq(8, i requires 0 <= i < 8 => IsAvailable(vout, 2 + b * 8 + i))
  }

  function MaskByte(vout: seq<TxOut>, b: nat): Byte {
    BitsBound(Eight(vout, b));
    assert Pow(2, 8) == 256;
    FromBits(Eight(vout, b))
  }

  function Mask(vout: seq<TxOut>, n: nat): Bytes { seq(n, b requires 0 <= b < n => MaskByte(vout, b)) }

  /** The number of bytes up to the last one that is not zero. */
  function LastUsed(vout: seq<TxOut>, n: nat): nat {
    if n == 0 then 0 else if MaskByte(vout, n - 1) != 0 then n else LastUsed(vout, n - 1)
  }

  function NonZero(s: Bytes): nat {
    if s == [] then 0 else NonZero(s[..|s| - 1]) + Bit(s[|s| - 1] != 0)
  }

  /** All bytes that could be needed. */
  function FullSize(vout: seq<TxOut>): nat { if |vout| <= 2 then 0 else (|vout| + 5) / 8 }

  function MaskSize(vout: seq<TxOut>): nat { LastUsed(vout, FullSize(vout)) }

  function MaskOf(vout: seq<TxOut>): Bytes { Mask(vout, MaskSize(vout)) }

  lemma {:induction false} LastUsedIsLast(vout: seq<TxOut>, n: nat)
    ensures var k := LastUsed(vout, n);
            k <= n && (k > 0 ==> MaskByte(vout, k - 1) != 0) && forall b :: k <= b < n ==> MaskByte(vout, b) == 0
  {
    hide MaskByte;
    if n > 0 && MaskByte(vout, n - 1) == 0 { LastUsedIsLast(vout, n - 1); }
  }

  /** A zero byte stands for eight outputs that are spent or not there. */
  lemma MaskByteZero(vout: seq<TxOut>, b: nat)
    ensures MaskByte(vout, b) == 0 <==> forall i :: 0 <= i < 8 ==> !Eight(vout, b)[i]
  {
    hide IsAvailable, Eight;
    BitsZero(Eight(vout, b));
  }

  /** Nothing is available beyond the mask. */
  lemma BeyondMask(vout: seq<TxOut>, i: nat)
    requires i >= 2 + 8 * MaskSize(vout)
    ensures !IsAvailable(vout, i)
  {
    hide MaskByte, LastUsed;
    if i < |vout| {
      var b, p := (i - 2) / 8, (i - 2) % 8;
      LastUsedIsLast(vout, FullSize(vout));
      assert b < FullSize(vout);
      MaskByteZero(vout, b);
      assert i == 2 + b * 8 + p;
      assert Eight(vout, b)[p] == IsAvailable(vout, i);
    }
  }

  /** Reading mask bytes until `code` of them are not zero. */
  function ReadMask(s: Bytes, code: nat, avail: seq<bool>): Parsed<seq<bool>>
    decreases |s|
  {
    if code == 0 then Some((avail, s))
    else if s == [] then None
    else ReadMask(s[1..], code - Bit(s[0] != 0), avail + BitsOf(s[0], 8))
  }

  function Unfolded(s: Bytes): seq<bool> {
    if s == [] then [] else BitsOf(s[0], 8) + Unfolded(s[1..])
  }

  lemma {:induction false} NonZeroCons(s: Bytes)
    requires s != []
    ensures NonZero(s) == Bit(s[0] != 0) + NonZero(s[1..])
    ensures s[|s| - 1] != 0 ==> NonZero(s) > 0
  {
    if |s| > 1 {
      NonZeroCons(s[..|s| - 1]);
      assert s[..|s| - 1][1..] == s[1..][..|s| - 2];
    }
  }

  lemma NoBytes()
    ensures NonZero([]) == 0
  {
  }

  /** A mask that does not end in zero is read back by the number of its bytes that are not zero. */
  lemma {:induction false} MaskRead(s: Bytes, rest: Bytes, avail: seq<bool>)
    requires s != [] ==> s[|s| - 1] != 0
    ensures ReadMask(s + rest, NonZero(s), avail) == Some((avail + Unfolded(s), rest))
    decreases |s|
  {
    hide BitsOf, NonZero;
    if s == [] {
      assert NonZero(s) == 0 by { NoBytes(); }
      assert s + rest == rest && avail + Unfolded(s) == avail;
    } else {
      NonZeroCons(s);
      assert (s + rest)[1..] == s[1..] + rest;
      MaskRead(s[1..], rest, avail + BitsOf(s[0], 8));
      assert avail + BitsOf(s[0], 8) + Unfolded(s[1..]) == avail + Unfolded(s);
    }
  }

  lemma {:induction false} UnfoldedAt(s: Bytes, i: nat)
    requires i < 8 * |s|
    ensures |Unfolded(s)| == 8 * |s| && Unfolded(s)[i] == BitsOf(s[i / 8], 8)[i % 8]
  {
    hide BitsOf;
    UnfoldedLength(s);
    if i >= 8 { UnfoldedAt(s[1..], i - 8); }
  }

  lemma {:induction false} UnfoldedLength(s: Bytes)
    ensures |Unfolded(s)| == 8 * |s|
  {
    hide BitsOf;
    if s != [] {
      UnfoldedLength(s[1..]);
    }
  }

  /** The availability that the header code and the mask together state. */
  function Availability(vout: seq<TxOut>): seq<bool> {
    [IsAvailable(vout, 0), IsAvailable(vout, 1)] + Unfolded(MaskOf(vout))
  }

  predicate AvailabilityAt(vout: seq<TxOut>, avail: seq<bool>, i: nat) {
    IsAvailable(vout, i) <==> i < |avail| && avail[i]
  }

  lemma AvailabilityExact(vout: seq<TxOut>, i: nat)
    ensures AvailabilityAt(vout, Availability(vout), i)
    ensures |Availability(vout)| == 2 + 8 * MaskSize(vout)
  {
    hide MaskByte, MaskSize, Unfolded, IsAvailable, BitsOf;
    var s := MaskOf(vout);
    UnfoldedLength(s);
    if i >= 2 + 8 * |s| {
      BeyondMask(vout, i);
    } else if i >= 2 {
      var b, p := (i - 2) / 8, (i - 2) % 8;
      UnfoldedAt(s, i - 2);
      MaskByteBits(vout, b);
      assert Eight(vout, b)[p] == IsAvailable(vout, 2 + b * 8 + p);
      assert i == 2 + b * 8 + p;
    }
  }

  lemma MaskByteBits(vout: seq<TxOut>, b: nat)
    ensures BitsOf(MaskByte(vout, b), 8) == Eight(vout, b)
  {
    hide IsAvailable;
    BitsBack(Eight(vout, b));
  }

  // ---------------------------------------------------------------- the outputs

  /** An output the format can carry. */
  predicate OutEncodable(o: TxOut) { o.Out? ==> 0 - LIMIT63 <= o.nValue < LIMIT63 && HasForm(o.nValue, o.script) }

  predicate InRange(o: TxOut) { o.Out? ==> 0 - LIMIT63 <= o.nValue < LIMIT63 }

  predicate AllInRange(vout: seq<TxOut>) { forall i :: 0 <= i < |vout| ==> InRange(vout[i]) }

  predicate AllEncodable(vout: seq<TxOut>) { forall i :: 0 <= i < |vout| ==> OutEncodable(vout[i]) }

  function WrittenOne(keys: Keys, o: TxOut): Bytes
    requires InRange(o)
  {
    if o.Null? then [] else WrittenOut(keys, o.nValue, o.script)
  }

  function WrittenOuts(keys: Keys, vout: seq<TxOut>): Bytes
    requires AllInRange(vout)
  {
    if vout == [] then [] else WrittenOne(keys, vout[0]) + WrittenOuts(keys, vout[1..])
  }

  /** An output with this amount is a spent one, whatever its script. */
  function AsOut(o: (int, Bytes)): TxOut { if o.0 == -1 then Null else Out(o.0, o.1) }

  /** Reading the outputs that are available; the others are null. */
  function ReadOuts(keys: Keys, s: Bytes, avail: seq<bool>): Parsed<seq<TxOut>>
    decreases |avail|
  {
    if avail == [] then Some(([], s))
    else if !avail[0] then Prefixed(Null, ReadOuts(keys, s, avail[1..]))
    else
      match ReadOut(keys, s)
      case None => None
      case Some((o, rest)) => Prefixed(AsOut(o), ReadOuts(keys, rest, avail[1..]))
  }

  function Prefixed(o: TxOut, r: Parsed<seq<TxOut>>): Parsed<seq<TxOut>> {
    match r
    case None => None
    case Some((v, rest)) => Some(([o] + v, rest))
  }

  /** An output that was not available is spent, and of the others those with amount -1, whatever their script. */
  lemma {:induction false} SpentExactly(keys: Keys, s: Bytes, avail: seq<bool>, v: seq<TxOut>, rest: Bytes, i: nat)
    requires ReadOuts(keys, s, avail) == Some((v, rest)) && i < |avail|
    ensures |v| == |avail| && (v[i] != Null ==> avail[i] && v[i].nValue != -1)
    ensures avail[0] ==>
      && ReadOut(keys, s).Some?
      && var (n, script) := ReadOut(keys, s).value.0;
      && (v[0] == Null <==> n == -1) && (v[0] == Out(n, script) <==> n != -1)
    decreases |avail|
  {
    hide ReadOut;
    var later := if avail[0] then ReadOut(keys, s).value.1 else s;
    assert ReadOuts(keys, later, avail[1..]) == Some((v[1..], rest));
    if |avail| > 1 { SpentExactly(keys, later, avail[1..], v[1..], rest, if i > 0 then i - 1 else 0); }
  }

  /** The first `n` outputs; beyond the end they count as spent. */
  function Padded(vout: seq<TxOut>, n: nat): seq<TxOut> {
    seq(n, i requires 0 <= i < n => if i < |vout| then vout[i] else Null)
  }

  lemma {:induction false} OutsRead(keys: Keys, vout: seq<TxOut>, avail: seq<bool>, rest: Bytes)
    requires keys.Sound() && AllEncodable(vout)
    requires forall i: nat :: AvailabilityAt(vout, avail, i)
    ensures AllInRange(vout)
    ensures ReadOuts(keys, WrittenOuts(keys, vout) + rest, avail) == Some((Padded(vout, |avail|), rest))
    decreases |avail|, |vout|
  {
    hide Keys.Sound, ReadOut, WrittenOut, OutEncodable, AvailabilityAt, Padded, AllEncodable;
    EncodableInRange(vout);
    if avail == [] {
      NothingWritten(keys, vout, avail);
      assert [] + rest == rest;
      PaddedFirst(vout, 0);
    } else {
      forall i: nat ensures AvailabilityAt(Tail(vout), avail[1..], i) { AvailabilityTail(vout, avail, i); }
      OutsRead(keys, Tail(vout), avail[1..], rest);
      PaddedFirst(vout, |avail|);
      FirstRead(keys, vout, avail, rest);
    }
  }

  lemma AvailabilityTail(vout: seq<TxOut>, avail: seq<bool>, i: nat)
    requires avail != [] && AvailabilityAt(vout, avail, i + 1)
    ensures AvailabilityAt(Tail(vout), avail[1..], i)
  {
  }

  lemma PaddedFirst(vout: seq<TxOut>, n: nat)
    ensures n == 0 ==> Padded(vout, n) == []
    ensures n > 0 ==> Padded(vout, n) == [if vout == [] then Null else vout[0]] + Padded(Tail(vout), n - 1)
  {
  }

  /** One output read, and then the others. */
  lemma FirstRead(keys: Keys, vout: seq<TxOut>, avail: seq<bool>, rest: Bytes)
    requires keys.Sound() && AllEncodable(vout) && AllInRange(vout) && AllInRange(Tail(vout)) && avail != []
    requires AvailabilityAt(vout, avail, 0)
    ensures ReadOuts(keys, WrittenOuts(keys, vout) + rest, avail) ==
      Prefixed(if vout == [] then Null else vout[0], ReadOuts(keys, WrittenOuts(keys, Tail(vout)) + rest, avail[1..]))
  {
    hide Keys.Sound, ReadOut, WrittenOut, OutEncodable, Prefixed;
    if avail[0] {
      var more := WrittenOuts(keys, vout[1..]);
      assert WrittenOuts(keys, vout) + rest == WrittenOut(keys, vout[0].nValue, vout[0].script) + (more + rest);
      OneRead(keys, vout[0], more + rest);
    } else {
      assert WrittenOuts(keys, vout) == WrittenOuts(keys, Tail(vout));
    }
  }

  function Tail(vout: seq<TxOut>): seq<TxOut> { if vout == [] then [] else vout[1..] }

  lemma EncodableInRange(vout: seq<TxOut>)
    requires AllEncodable(vout)
    ensures AllInRange(vout) && AllEncodable(Tail(vout)) && AllInRange(Tail(vout))
  {
    forall i | 0 <= i < |vout| ensures InRange(vout[i]) { assert OutEncodable(vout[i]); }
    forall i | 0 <= i < |Tail(vout)| ensures OutEncodable(Tail(vout)[i]) { assert OutEncodable(vout[i + 1]); }
    TailInRange(vout);
  }

  lemma TailInRange(vout: seq<TxOut>)
    requires AllInRange(vout)
    ensures AllInRange(Tail(vout))
  {
    forall i | 0 <= i < |Tail(vout)| ensures InRange(Tail(vout)[i]) { assert InRange(vout[i + 1]); }
  }

  lemma OneRead(keys: Keys, o: TxOut, rest: Bytes)
    requires keys.Sound() && o.Out? && InRange(o)
    ensures var r := ReadOut(keys, WrittenOut(keys, o.nValue, o.script) + rest);
            && (OutEncodable(o) ==> r.Some? && AsOut(r.value.0) == o && r.value.1 == rest)
            && (r.Some? && AsOut(r.value.0) == o ==> OutEncodable(o))
  {
    hide Keys.Sound, ReadOut, WrittenOut, HasForm;
    OutRoundTrip(keys, o.nValue, o.script, rest);
    NullHasNoForm(o.script);
  }

  /** The amount that marks a spent output has no compact form of 64 bits. */
  lemma NullHasNoForm(script: Bytes)
    ensures !HasForm(-1, script)
  {
    hide CompactAmount;
    LargeForm(LIMIT64 - 1);
  }

  /** What has been read agrees with the outputs that are available. */
  ghost predicate Agrees(vout: seq<TxOut>, v: seq<TxOut>) {
    forall i: nat :: IsAvailable(vout, i) ==> i < |v| && v[i] == vout[i]
  }

  /** If all available outputs are read back then they all have compact forms. */
  lemma {:induction false} OutsGiven(keys: Keys, vout: seq<TxOut>, avail: seq<bool>, rest: Bytes)
    requires keys.Sound() && AllInRange(vout)
    requires forall i: nat :: AvailabilityAt(vout, avail, i)
    requires var r := ReadOuts(keys, WrittenOuts(keys, vout) + rest, avail); r.Some? && Agrees(vout, r.value.0)
    ensures AllEncodable(vout)
    decreases |avail|, |vout|
  {
    hide Keys.Sound, ReadOut, WrittenOut, OutEncodable;
    if avail == [] {
      NoneAvailable(vout, avail);
    } else if vout != [] {
      assert AvailabilityAt(vout, avail, 0);
      forall i: nat ensures AvailabilityAt(vout[1..], avail[1..], i) { assert AvailabilityAt(vout, avail, i + 1); }
      TailInRange(vout);
      var all := ReadOuts(keys, WrittenOuts(keys, vout) + rest, avail).value.0;
      var more := WrittenOuts(keys, vout[1..]);
      assert InRange(vout[0]);
      if avail[0] {
        assert IsAvailable(vout, 0) && all[0] == vout[0];
        assert WrittenOuts(keys, vout) + rest == WrittenOut(keys, vout[0].nValue, vout[0].script) + (more + rest);
        OneRead(keys, vout[0], more + rest);
      } else {
        NullEncodable(vout[0]);
        assert WrittenOuts(keys, vout) == more;
      }
      AgreesTail(vout, all);
      OutsGiven(keys, vout[1..], avail[1..], rest);
      EncodableCons(vout);
    }
  }

  lemma NullEncodable(o: TxOut)
    ensures o.Null? ==> OutEncodable(o)
  {
  }

  lemma AgreesTail(vout: seq<TxOut>, v: seq<TxOut>)
    requires vout != [] && v != [] && Agrees(vout, v)
    ensures Agrees(vout[1..], v[1..])
  {
    forall i: nat | IsAvailable(vout[1..], i) ensures i < |v[1..]| && v[1..][i] == vout[1..][i] { assert IsAvailable(vout, i + 1); }
  }

  lemma EncodableCons(vout: seq<TxOut>)
    requires vout != [] && OutEncodable(vout[0]) && AllEncodable(vout[1..])
    ensures AllEncodable(vout)
  {
    hide OutEncodable;
    forall i | 0 <= i < |vout| ensures OutEncodable(vout[i]) { if i > 0 { assert OutEncodable(vout[1..][i - 1]); } }
  }

  lemma NoneAvailable(vout: seq<TxOut>, avail: seq<bool>)
    requires avail == [] && forall i: nat :: AvailabilityAt(vout, avail, i)
    ensures AllEncodable(vout)
  {
    hide HasForm;
    forall i | 0 <= i < |vout| ensures OutEncodable(vout[i]) { assert AvailabilityAt(vout, avail, i); }
  }

  lemma {:induction false} NothingWritten(keys: Keys, vout: seq<TxOut>, avail: seq<bool>)
    requires AllInRange(vout) && avail == [] && forall i: nat :: AvailabilityAt(vout, avail, i)
    ensures WrittenOuts(keys, vout) == []
    decreases |vout|
  {
    hide WrittenOut;
    if vout != [] {
      assert AvailabilityAt(vout, avail, 0);
      forall i: nat ensures AvailabilityAt(vout[1..], avail, i) { assert AvailabilityAt(vout, avail, i + 1); }
      TailInRange(vout);
      NothingWritten(keys, vout[1..], avail);
    }
  }

  // ---------------------------------------------------------------- coins

  predicate InInt32(n: int) { -0x8000_0000 <= n < 0x8000_0000 }

  /** The header code: the mask's bytes that are not zero, less one if that is implied, over three flags. */
  function HeaderCode(c: Coins): int {
    var first, second := IsAvailable(c.vout, 0), IsAvailable(c.vout, 1);
    8 * (NonZero(MaskOf(c.vout)) - (if first || second then 0 else 1)) + Bit(c.fCoinBase) + 2 * Bit(first) + 4 * Bit(second)
  }

  predicate Fields(c: Coins) {
    InInt32(c.nVersion) && InInt32(c.nHeight) && AllInRange(c.vout) && |c.vout| <= LIMIT32 - 16
  }

  function WrittenCoins(keys: Keys, c: Coins): Bytes
    requires Fields(c) && !IsPruned(c)
  {
    HeaderFits(c);
    VarInt(c.nVersion, false) + (VarInt(HeaderCode(c), false) + (MaskOf(c.vout) + (WrittenOuts(keys, c.vout) + VarInt(c.nHeight, false))))
  }

  function ReadCoins(keys: Keys, b: Bytes): Parsed<Coins> {
    match ReadSigned(b)
    case None => None
    case Some((nVersion, b1)) =>
      match ReadVarInt(0, b1, LIMIT32)
      case None => None
      case Some((nCode, b2)) =>
        match ReadMask(b2, MaskCode(nCode), [Flag(nCode, 2), Flag(nCode, 4)])
        case None => None
        case Some((avail, b3)) =>
          match ReadOuts(keys, b3, avail)
          case None => None
          case Some((vout, b4)) =>
            match ReadSigned(b4)
            case None => None
            case Some((nHeight, b5)) => Some((Cleanup(Coins(Flag(nCode, 1), vout, nHeight, nVersion)), b5))
  }

  predicate Flag(n: nat, m: nat)
    requires m == 1 || m == 2 || m == 4
  {
    (n / m) % 2 == 1
  }

  /** How many mask bytes that are not zero a header code announces. */
  function MaskCode(nCode: nat): nat { nCode / 8 + (if Flag(nCode, 2) || Flag(nCode, 4) then 0 else 1) }

  lemma {:induction false} NonZeroAtMost(s: Bytes)
    ensures NonZero(s) <= |s|
  {
    if s != [] { NonZeroAtMost(s[..|s| - 1]); }
  }

  lemma MaskEnds(vout: seq<TxOut>)
    ensures var s := MaskOf(vout); |s| <= FullSize(vout) && (s != [] ==> s[|s| - 1] != 0 && NonZero(s) > 0)
  {
    hide MaskByte, LastUsed, NonZero;
    LastUsedIsLast(vout, FullSize(vout));
    var s := MaskOf(vout);
    if s != [] { NonZeroCons(s); }
  }

  /** If some output is not spent, either the flags or the mask say so, and the code fits its type. */
  lemma HeaderFits(c: Coins)
    requires !IsPruned(c) && |c.vout| <= LIMIT32 - 16
    ensures IsAvailable(c.vout, 0) || IsAvailable(c.vout, 1) || NonZero(MaskOf(c.vout)) > 0
    ensures 0 <= HeaderCode(c) < LIMIT32
  {
    hide MaskOf, MaskSize, NonZero;
    MaskEnds(c.vout);
    NonZeroAtMost(MaskOf(c.vout));
    var i :| 0 <= i < |c.vout| && !c.vout[i].Null?;
    assert IsAvailable(c.vout, i);
    if i >= 2 + 8 * MaskSize(c.vout) { BeyondMask(c.vout, i); }
    assert |MaskOf(c.vout)| == MaskSize(c.vout) by { MaskLength(c.vout); }
  }

  lemma MaskLength(vout: seq<TxOut>)
    ensures |MaskOf(vout)| == MaskSize(vout)
  {
  }

  /** The header code tells the flags and the mask apart again. */
  lemma HeaderRead(c: Coins)
    requires !IsPruned(c) && |c.vout| <= LIMIT32 - 16
    ensures var n := HeaderCode(c);
            n >= 0 && Flag(n, 1) == c.fCoinBase && Flag(n, 2) == IsAvailable(c.vout, 0) && Flag(n, 4) == IsAvailable(c.vout, 1)
            && MaskCode(n) == NonZero(MaskOf(c.vout))
  {
    hide MaskOf, NonZero, IsAvailable;
    HeaderFits(c);
  }

  /** Trimming cuts behind the last output that is not spent. */
  lemma {:induction false} TrimmedAt(v: seq<TxOut>, k: nat)
    requires k <= |v| && (forall i :: k <= i < |v| ==> v[i].Null?) && (k > 0 ==> v[k - 1].Out?)
    ensures Trimmed(v) == v[..k]
  {
    if k < |v| {
      TrimmedAt(v[..|v| - 1], k);
      assert v[..|v| - 1][..k] == v[..k];
    } else {
      assert v[..k] == v;
    }
  }

  lemma {:induction false} TrimmedLast(v: seq<TxOut>) returns (k: nat)
    ensures k <= |v| && (forall i :: k <= i < |v| ==> v[i].Null?) && (k > 0 ==> v[k - 1].Out?)
  {
    k := |v|;
    while k > 0 && v[k - 1].Null?
      invariant k <= |v| && forall i :: k <= i < |v| ==> v[i].Null?
    {
      k := k - 1;
    }
  }

  lemma TrimmedKeeps(v: seq<TxOut>)
    ensures var t := Trimmed(v);
            && (forall i: nat :: IsAvailable(t, i) <==> IsAvailable(v, i))
            && |t| <= |v| && t == v[..|t|] && (t != [] ==> t[|t| - 1].Out?)
  {
    var k := TrimmedLast(v);
    TrimmedAt(v, k);
    forall i: nat ensures IsAvailable(v[..k], i) <==> IsAvailable(v, i) { }
  }

  /** Padding or cutting off spent outputs at the end makes no difference. */
  lemma TrimmedPadded(vout: seq<TxOut>, n: nat)
    requires forall i :: n <= i ==> !IsAvailable(vout, i)
    ensures Trimmed(Padded(vout, n)) == Trimmed(vout)
  {
    var k := TrimmedLast(vout);
    assert k > 0 ==> IsAvailable(vout, k - 1);
    TrimmedAt(vout, k);
    var p := Padded(vout, n);
    TrimmedAt(p, k);
    assert p[..k] == vout[..k];
  }

  /**
   Unspent outputs are read back without the spent ones at the end, and exactly their bytes
   are consumed, if and only if version and height are not negative and every output has an
   amount and a script with compact forms.
   */
  lemma CoinsRoundTrip(keys: Keys, c: Coins, rest: Bytes)
    requires keys.Sound() && Fields(c) && !IsPruned(c)
    ensures ReadCoins(keys, WrittenCoins(keys, c) + rest) == Some((Cleanup(c), rest))
       <==> c.nVersion >= 0 && c.nHeight >= 0 && AllEncodable(c.vout)
  {
    hide Keys.Sound, VarInt, ReadSigned, ReadOuts, WrittenOuts, IsPruned, Trimmed, AllEncodable, AllInRange, IsAvailable, Availability, HeaderCode, ReadCoins, WrittenCoins;
    var b4 := VarInt(c.nHeight, false) + rest;
    var b3 := WrittenOuts(keys, c.vout) + b4;
    CoinsHeader(keys, c, rest);
    forall i: nat ensures AvailabilityAt(c.vout, Availability(c.vout), i) { AvailabilityExact(c.vout, i); }
    if AllEncodable(c.vout) {
      OutsReadTrimmed(keys, c.vout, b4);
      SignedRoundTrip(c.nHeight, rest);
    } else {
      var r := ReadOuts(keys, b3, Availability(c.vout));
      if r.Some? && Trimmed(r.value.0) == Trimmed(c.vout) {
        TrimmedAgrees(c.vout, r.value.0);
        OutsGiven(keys, c.vout, Availability(c.vout), b4);
      }
    }
  }

  /** Version, header code and mask are read whatever the outputs are. */
  lemma CoinsHeader(keys: Keys, c: Coins, rest: Bytes)
    requires keys.Sound() && Fields(c) && !IsPruned(c)
    ensures var v := ReadSigned(VarInt(c.nVersion, false)); v.Some? && (v.value.0 == c.nVersion <==> c.nVersion >= 0)
    ensures var b3 := WrittenOuts(keys, c.vout) + (VarInt(c.nHeight, false) + rest);
      ReadCoins(keys, WrittenCoins(keys, c) + rest) ==
        match ReadOuts(keys, b3, Availability(c.vout))
        case None => None
        case Some((vout, b4)) =>
          match ReadSigned(b4)
          case None => None
          case Some((nHeight, b5)) => Some((Cleanup(Coins(c.fCoinBase, vout, nHeight, ReadSigned(VarInt(c.nVersion, false)).value.0)), b5))
  {
    hide Keys.Sound, ReadVarInt, VarInt, ReadSigned, HeaderCode, MaskOf, ReadMask, ReadOuts, WrittenOuts, IsPruned, Cleanup, MaskSize,
      AllInRange, NonZero, Flag, MaskCode, IsAvailable, Availability;
    HeaderFits(c);
    HeaderRead(c);
    var n := HeaderCode(c);
    var b4 := VarInt(c.nHeight, false) + rest;
    var b3 := WrittenOuts(keys, c.vout) + b4;
    var b2 := MaskOf(c.vout) + b3;
    var b1 := VarInt(n, false) + b2;
    assert WrittenCoins(keys, c) + rest == VarInt(c.nVersion, false) + b1;
    SignedAlone(c.nVersion, b1);
    VarIntRoundTrip(n, b2, LIMIT32);
    MaskEnds(c.vout);
    MaskRead(MaskOf(c.vout), b3, [IsAvailable(c.vout, 0), IsAvailable(c.vout, 1)]);
    AvailabilityParts(c.vout);
  }

  /** What a signed integer is read as does not depend on what follows. */
  lemma SignedAlone(n: int, rest: Bytes)
    requires InInt32(n)
    ensures var r := ReadSigned(VarInt(n, false)); r.Some? && (r.value.0 == n <==> n >= 0)
    ensures ReadSigned(VarInt(n, false) + rest) == Some((ReadSigned(VarInt(n, false)).value.0, rest))
  {
    hide ReadVarInt, VarInt;
    var m := if n >= 0 then n else n % 128;
    assert VarInt(n, false) == VarInt(m, false) by { OneByteOnly(n); }
    assert VarInt(m, false) + [] == VarInt(m, false);
    VarIntRoundTrip(m, [], LIMIT32);
    VarIntRoundTrip(m, rest, LIMIT32);
  }

  lemma OneByteOnly(n: int)
    ensures n < 0 ==> VarInt(n, false) == VarInt(n % 128, false)
  {
  }

  lemma OutsReadTrimmed(keys: Keys, vout: seq<TxOut>, rest: Bytes)
    requires keys.Sound() && AllEncodable(vout)
    ensures AllInRange(vout)
    ensures var r := ReadOuts(keys, WrittenOuts(keys, vout) + rest, Availability(vout));
            r.Some? && Trimmed(r.value.0) == Trimmed(vout) && r.value.1 == rest
  {
    hide Keys.Sound, ReadOuts, WrittenOuts, Trimmed, AllEncodable, AllInRange, IsAvailable, Availability;
    forall i: nat ensures AvailabilityAt(vout, Availability(vout), i) { AvailabilityExact(vout, i); }
    OutsRead(keys, vout, Availability(vout), rest);
    var size := |Availability(vout)|;
    forall i: nat | size <= i ensures !IsAvailable(vout, i) { assert AvailabilityAt(vout, Availability(vout), i); }
    TrimmedPadded(vout, size);
  }

  /** Sequences that are the same when trimmed have the same unspent outputs. */
  lemma TrimmedAgrees(vout: seq<TxOut>, v: seq<TxOut>)
    requires Trimmed(v) == Trimmed(vout)
    ensures Agrees(vout, v)
  {
    hide Trimmed;
    TrimmedKeeps(vout);
    TrimmedKeeps(v);
    forall i: nat | IsAvailable(vout, i) ensures i < |v| && v[i] == vout[i] {
      var t := Trimmed(vout);
      assert IsAvailable(t, i);
      assert t[i] == vout[..|t|][i] == v[..|t|][i];
    }
  }

  lemma AvailabilityParts(vout: seq<TxOut>)
    ensures Availability(vout) == [IsAvailable(vout, 0), IsAvailable(vout, 1)] + Unfolded(MaskOf(vout))
  {
  }

  // ---------------------------------------------------------------- the algorithms

  /** Bytes beyond the last one used add nothing to the count. */
  lemma {:induction false} NonZeroUpTo(vout: seq<TxOut>, n: nat)
    ensures NonZero(Mask(vout, n)) == NonZero(Mask(vout, LastUsed(vout, n)))
  {
    hide MaskByte;
    if n > 0 && MaskByte(vout, n - 1) == 0 {
      MaskSnoc(vout, n - 1);
      NonZeroUpTo(vout, n - 1);
    }
  }

  lemma MaskSnoc(vout: seq<TxOut>, n: nat)
    ensures Mask(vout, n + 1) == Mask(vout, n) + [MaskByte(vout, n)]
    ensures NonZero(Mask(vout, n + 1)) == NonZero(Mask(vout, n)) + Bit(MaskByte(vout, n) != 0)
  {
    hide MaskByte;
    var s := Mask(vout, n + 1);
    assert s[..n] == Mask(vout, n);
  }

  lemma {:induction false} OutsSnoc(keys: Keys, vout: seq<TxOut>, o: TxOut)
    requires AllInRange(vout) && InRange(o)
    ensures AllInRange(vout + [o]) && WrittenOuts(keys, vout + [o]) == WrittenOuts(keys, vout) + WrittenOne(keys, o)
  {
    hide WrittenOne;
    if vout != [] {
      assert AllInRange(vout[1..]) by { TailInRange(vout); }
      assert (vout + [o])[1..] == vout[1..] + [o];
      OutsSnoc(keys, vout[1..], o);
    } else {
      assert (vout + [o])[1..] == [];
    }
  }

  lemma FirstByte(vout: seq<TxOut>)
    ensures LastUsed(vout, 0) == 0 && NonZero(Mask(vout, 0)) == 0
  {
  }

  lemma NextByte(vout: seq<TxOut>, b: nat)
    ensures LastUsed(vout, b + 1) == if MaskByte(vout, b) != 0 then b + 1 else LastUsed(vout, b)
  {
  }

  lemma Available(vout: seq<TxOut>, i: nat)
    ensures IsAvailable(vout, i) <==> i < |vout| && vout[i].Out?
  {
  }

  lemma {:induction false} RestClear(s: seq<bool>, i: nat)
    requires i <= |s| && forall k :: i <= k < |s| ==> !s[k]
    ensures FromBits(s) == FromBits(s[..i])
  {
    if i == 0 {
      BitsZero(s);
    } else {
      RestClear(s[1..], i - 1);
      assert s[..i][1..] == s[1..][..i - 1];
    }
  }

  method TakeMask(s: Stream, code: nat, flags: seq<bool>) returns (r: Option<seq<bool>>)
    modifies s
    ensures match ReadMask(old(s.data), code, flags)
            case None => r == None
            case Some((avail, rest)) => r == Some(avail) && s.data == rest
  {
    hide BitsOf;
    var vAvail, nMaskCode := flags, code;
    while nMaskCode > 0
      invariant ReadMask(s.data, nMaskCode, vAvail) == ReadMask(old(s.data), code, flags)
      decreases |s.data|
    {
      var ch := s.Read(1);
      if ch.None? { return None; }
      var chAvail := ch.value[0];
      ghost var was, left := vAvail, s.data;
      for p := 0 to 8
        invariant s.data == left && vAvail == was + BitsOf(chAvail, 8)[..p]
      {
        BitAt(chAvail, 8, p);
        var f := (chAvail / Pow(2, p)) % 2 == 1;
        assert BitsOf(chAvail, 8)[..p + 1] == BitsOf(chAvail, 8)[..p] + [f];
        vAvail := vAvail + [f];
      }
      assert BitsOf(chAvail, 8)[..8] == BitsOf(chAvail, 8);
      if chAvail != 0 { nMaskCode := nMaskCode - 1; }
    }
    return Some(vAvail);
  }

  /** Outputs already read put before those still to be read. */
  function After(done: seq<TxOut>, r: Parsed<seq<TxOut>>): Parsed<seq<TxOut>> {
    match r
    case None => None
    case Some((v, rest)) => Some((done + v, rest))
  }

  lemma AfterOne(done: seq<TxOut>, o: TxOut, r: Parsed<seq<TxOut>>)
    ensures After(done, Prefixed(o, r)) == After(done + [o], r)
  {
    if r.Some? { assert done + ([o] + r.value.0) == done + [o] + r.value.0; }
  }

  lemma AfterNone(r: Parsed<seq<TxOut>>)
    ensures After([], r) == r
  {
    if r.Some? { assert [] + r.value.0 == r.value.0; }
  }

  method TakeOuts(keys: Keys, s: Stream, avail: seq<bool>) returns (r: Option<seq<TxOut>>)
    modifies s
    ensures match ReadOuts(keys, old(s.data), avail)
            case None => r == None
            case Some((v, rest)) => r == Some(v) && s.data == rest
  {
    hide ReadOut;
    var vout: seq<TxOut> := seq(|avail|, i => Null);
    assert avail[0..] == avail && vout[..0] == [];
    AfterNone(ReadOuts(keys, s.data, avail));
    for i := 0 to |avail|
      invariant |vout| == |avail| && forall k :: i <= k < |vout| ==> vout[k] == Null
      invariant After(vout[..i], ReadOuts(keys, s.data, avail[i..])) == ReadOuts(keys, old(s.data), avail)
    {
      assert avail[i..][1..] == avail[i + 1..];
      if avail[i] {
        var o := TakeOut(keys, s);
        if o.None? { return None; }
        ghost var more := ReadOuts(keys, s.data, avail[i + 1..]);
        AfterOne(vout[..i], AsOut(o.value), more);
        vout := vout[i := AsOut(o.value)];
        assert vout[..i + 1] == vout[..i] + [AsOut(o.value)];
      } else {
        AfterOne(vout[..i], Null, ReadOuts(keys, s.data, avail[i + 1..]));
        assert vout[..i + 1] == vout[..i] + [Null];
      }
    }
    assert vout[..|avail|] == vout && avail[|avail|..] == [] && vout + [] == vout;
    return Some(vout);
  }

  /** The record of a transaction's unspent outputs. */
  class CoinsRecord {
    var fCoinBase: bool
    var vout: seq<TxOut>
    var nHeight: int
    var nVersion: int

    constructor ()
      ensures Contents() == NO_COINS
    {
      fCoinBase, vout, nHeight, nVersion := false, [], 0, 0;
    }

    function Contents(): Coins
      reads this
    {
      Coins(fCoinBase, vout, nHeight, nVersion)
    }

    method CalcMaskSize() returns (nBytes: nat, nNonzeroBytes: nat)
      ensures nBytes == |MaskOf(vout)| && nNonzeroBytes == NonZero(MaskOf(vout))
    {
      hide MaskByte, LastUsed, NonZero, IsAvailable;
      var nLastUsedByte := 0;
      nNonzeroBytes := 0;
      var b := 0;
      FirstByte(vout);
      while 2 + b * 8 < |vout|
        invariant b <= FullSize(vout)
        invariant nLastUsedByte == LastUsed(vout, b) && nNonzeroBytes == NonZero(Mask(vout, b))
      {
        var fZero := EightSpent(b);
        MaskSnoc(vout, b);
        NextByte(vout, b);
        if !fZero {
          nLastUsedByte := b + 1;
          nNonzeroBytes := nNonzeroBytes + 1;
        }
        b := b + 1;
      }
      NonZeroUpTo(vout, b);
      nBytes := nLastUsedByte;
    }

    method EightSpent(b: nat) returns (fZero: bool)
      ensures fZero <==> MaskByte(vout, b) == 0
    {
      hide MaskByte;
      MaskByteZero(vout, b);
      ghost var e := Eight(vout, b);
      assert forall i :: 0 <= i < 8 ==> e[i] == IsAvailable(vout, 2 + b * 8 + i);
      fZero := true;
      var i := 0;
      while i < 8 && 2 + b * 8 + i < |vout|
        invariant i <= 8 && (fZero <==> forall k :: 0 <= k < i ==> !e[k])
      {
        Available(vout, 2 + b * 8 + i);
        assert e[i] == IsAvailable(vout, 2 + b * 8 + i);
        if !vout[2 + b * 8 + i].Null? { fZero := false; }
        i := i + 1;
      }
      forall k | i <= k < 8 ensures !e[k] { Available(vout, 2 + b * 8 + k); }
    }

    method AvailableByte(b: nat) returns (chAvail: Byte)
      ensures chAvail == MaskByte(vout, b)
    {
      hide FromBits, IsAvailable;
      ghost var e := Eight(vout, b);
      assert forall k :: 0 <= k < 8 ==> e[k] == IsAvailable(vout, 2 + b * 8 + k);
      chAvail := 0;
      assert FromBits(e[..0]) == 0 by { BitsZero(e[..0]); }
      var i := 0;
      while i < 8 && 2 + b * 8 + i < |vout|
        invariant i <= 8 && chAvail == FromBits(e[..i])
      {
        assert e[..i + 1] == e[..i] + [e[i]];
        BitsSnoc(e[..i], e[i]);
        BitsBound(e[..i + 1]);
        PowMonotone(2, i + 1, 8);
        assert Pow(2, 8) == 256;
        assert e[i] <==> vout[2 + b * 8 + i].Out? by { Available(vout, 2 + b * 8 + i); }
        if !vout[2 + b * 8 + i].Null? { chAvail := chAvail + Pow(2, i); }
        i := i + 1;
      }
      forall k | i <= k < 8 ensures !e[k] { Available(vout, 2 + b * 8 + k); }
      RestClear(e, i);
    }

    method Serialize(keys: Keys, s: Stream)
      requires keys.Sound() && Fields(Contents()) && !IsPruned(Contents())
      modifies s
      ensures s.data == old(s.data) + WrittenCoins(keys, Contents())
    {
      hide MaskOf, NonZero, VarInt, IsPruned, AllInRange, WrittenOuts, WrittenOne, Wrapped, Keys.Sound, Compressed, WrittenScript;
      var nMaskSize, nMaskCode := CalcMaskSize();
      var fFirst := |vout| > 0 && !vout[0].Null?;
      var fSecond := |vout| > 1 && !vout[1].Null?;
      HeaderFits(Contents());
      assert fFirst || fSecond || nMaskCode > 0;
      var nCode := 8 * (nMaskCode - (if fFirst || fSecond then 0 else 1)) + Bit(fCoinBase) + 2 * Bit(fFirst) + 4 * Bit(fSecond);
      WriteVarInt(s, nVersion, 32);
      WriteVarInt(s, nCode, 32);
      ghost var was := s.data;
      SerializeMask(s, nMaskSize);
      SerializeOuts(keys, s);
      WriteVarInt(s, nHeight, 32);
    }

    method SerializeMask(s: Stream, nMaskSize: nat)
      requires nMaskSize == |MaskOf(vout)|
      modifies s
      ensures s.data == old(s.data) + MaskOf(vout)
    {
      hide MaskByte;
      for b := 0 to nMaskSize
        invariant s.data == old(s.data) + Mask(vout, b)
      {
        var chAvail := AvailableByte(b);
        MaskSnoc(vout, b);
        s.Write([chAvail]);
      }
    }

    method SerializeOuts(keys: Keys, s: Stream)
      requires AllInRange(vout) && keys.Sound()
      modifies s
      ensures s.data == old(s.data) + WrittenOuts(keys, vout)
    {
      hide Compressed, WrittenScript, VarInt, Keys.Sound;
      assert vout[..0] == [];
      for i := 0 to |vout|
        invariant AllInRange(vout[..i]) && s.data == old(s.data) + WrittenOuts(keys, vout[..i])
      {
        assert vout[..i + 1] == vout[..i] + [vout[i]];
        assert InRange(vout[i]);
        OutsSnoc(keys, vout[..i], vout[i]);
        if !vout[i].Null? {
          WriteOut(keys, s, vout[i].nValue, vout[i].script);
        }
      }
      assert vout[..|vout|] == vout;
    }

    /** Returns false where the program throws. */
    method Unserialize(keys: Keys, s: Stream) returns (ok: bool)
      modifies this, s
      ensures match ReadCoins(keys, old(s.data))
              case None => !ok
              case Some((c, rest)) => ok && Contents() == c && s.data == rest
    {
      hide ReadVarInt, ReadMask, ReadOuts, Trimmed;
      var version := TakeVarInt(s, LIMIT32);
      if version.None? { return false; }
      nVersion := Signed(version.value);
      var code := TakeVarInt(s, LIMIT32);
      if code.None? { return false; }
      var nCode := code.value;
      fCoinBase := Flag(nCode, 1);
      var avail := TakeMask(s, MaskCode(nCode), [Flag(nCode, 2), Flag(nCode, 4)]);
      if avail.None? { return false; }
      var outs := TakeOuts(keys, s, avail.value);
      if outs.None? { return false; }
      vout := outs.value;
      var height := TakeVarInt(s, LIMIT32);
      if height.None? { return false; }
      nHeight := Signed(height.value);
      Cleanup();
      return true;
    }

    method Cleanup()
      modifies this`vout
      ensures Contents() == CoinsLayers.Cleanup(old(Contents()))
    {
      while |vout| > 0 && vout[|vout| - 1].Null?
        invariant Trimmed(vout) == Trimmed(old(vout))
      {
        vout := vout[..|vout| - 1];
      }
    }

    /** Marks an output spent. */
    method Spend(nPos: nat) returns (ok: bool)
      modifies this`vout
      ensures ok <==> IsAvailable(old(vout), nPos)
      ensures forall i: nat :: IsAvailable(vout, i) <==> IsAvailable(old(vout), i) && i != nPos
      ensures forall i: nat :: IsAvailable(vout, i) ==> i < |old(vout)| && vout[i] == old(vout)[i]
      ensures ok ==> vout == [] || vout[|vout| - 1].Out?
      ensures !ok ==> vout == old(vout)
    {
      if nPos >= |vout| || vout[nPos].Null? { return false; }
      vout := vout[nPos := Null];
      TrimmedKeeps(vout);
      Cleanup();
      return true;
    }
  }
}
