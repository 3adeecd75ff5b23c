/**
 Answers worked out in the program's own tests and comments, byte for byte.
 */
module KnownAnswers {
  import opened Common
  import opened Limbs
  import Streams
  import Base58
  import Compact
  import Compressor
  import ScriptForms
  import CoinsLayers
  import CoinsCodec
  import Json

  // ---------------------------------------------------------------- integers

  /** The table of examples for variable-length integers, 16511 and 65535 corrected. */
  lemma {:induction false} Integers()
    ensures Streams.VarInt(0, false) == [0x00]
    ensures Streams.VarInt(1, false) == [0x01]
    ensures Streams.VarInt(127, false) == [0x7f]
    ensures Streams.VarInt(128, false) == [0x80, 0x00]
    ensures Streams.VarInt(255, false) == [0x80, 0x7f]
    ensures Streams.VarInt(256, false) == [0x81, 0x00]
    ensures Streams.VarInt(16383, false) == [0xfe, 0x7f]
    ensures Streams.VarInt(16384, false) == [0xff, 0x00]
    ensures Streams.VarInt(16511, false) == [0xff, 0x7f]
    ensures Streams.VarInt(65535, false) == [0x82, 0xfe, 0x7f]
    ensures Streams.VarInt(0x100000000, false) == [0x8e, 0xfe, 0xfe, 0xff, 0x00]
  {
    hide Streams.VarInt;
    Streams.VarIntUnfold(0, false);
    Streams.VarIntUnfold(1, false);
    Streams.VarIntUnfold(127, false);
    Streams.VarIntUnfold(128, false);
    Streams.VarIntUnfold(0, true);
    Streams.VarIntUnfold(255, false);
    Streams.VarIntUnfold(256, false);
    Streams.VarIntUnfold(1, true);
    Streams.VarIntUnfold(16383, false);
    Streams.VarIntUnfold(126, true);
    Streams.VarIntUnfold(16384, false);
    Streams.VarIntUnfold(127, true);
    Streams.VarIntUnfold(16511, false);
    Streams.VarIntUnfold(65535, false);
    Streams.VarIntUnfold(510, true);
    Streams.VarIntUnfold(2, true);
    Streams.VarIntUnfold(0x100000000, false);
    Streams.VarIntUnfold(0x1ffffff, true);
    Streams.VarIntUnfold(0x3fffe, true);
    Streams.VarIntUnfold(2046, true);
    Streams.VarIntUnfold(14, true);
  }

  // ---------------------------------------------------------------- Base58

  /** The digits are "123456789", "ABCDEFGHJKLMNPQRSTUVWXYZ" and "abcdefghijkmnopqrstuvwxyz". */
  lemma Digits58()
    ensures Base58.Letter(0) == 0x31 && Base58.Letter(1) == 0x32 && Base58.Letter(2) == 0x33 && Base58.Letter(3) == 0x34 && Base58.Letter(4) == 0x35 && Base58.Letter(5) == 0x36 && Base58.Letter(6) == 0x37 && Base58.Letter(7) == 0x38 && Base58.Letter(8) == 0x39
    ensures Base58.Letter(9) == 0x41 && Base58.Letter(10) == 0x42 && Base58.Letter(11) == 0x43 && Base58.Letter(12) == 0x44 && Base58.Letter(13) == 0x45 && Base58.Letter(14) == 0x46 && Base58.Letter(15) == 0x47 && Base58.Letter(16) == 0x48 && Base58.Letter(17) == 0x4a && Base58.Letter(18) == 0x4b && Base58.Letter(19) == 0x4c && Base58.Letter(20) == 0x4d
    ensures Base58.Letter(21) == 0x4e && Base58.Letter(22) == 0x50 && Base58.Letter(23) == 0x51 && Base58.Letter(24) == 0x52 && Base58.Letter(25) == 0x53 && Base58.Letter(26) == 0x54 && Base58.Letter(27) == 0x55 && Base58.Letter(28) == 0x56 && Base58.Letter(29) == 0x57 && Base58.Letter(30) == 0x58 && Base58.Letter(31) == 0x59 && Base58.Letter(32) == 0x5a
    ensures Base58.Letter(33) == 0x61 && Base58.Letter(34) == 0x62 && Base58.Letter(35) == 0x63 && Base58.Letter(36) == 0x64 && Base58.Letter(37) == 0x65 && Base58.Letter(38) == 0x66 && Base58.Letter(39) == 0x67 && Base58.Letter(40) == 0x68 && Base58.Letter(41) == 0x69 && Base58.Letter(42) == 0x6a && Base58.Letter(43) == 0x6b && Base58.Letter(44) == 0x6d
    ensures Base58.Letter(45) == 0x6e && Base58.Letter(46) == 0x6f && Base58.Letter(47) == 0x70 && Base58.Letter(48) == 0x71 && Base58.Letter(49) == 0x72 && Base58.Letter(50) == 0x73 && Base58.Letter(51) == 0x74 && Base58.Letter(52) == 0x75 && Base58.Letter(53) == 0x76 && Base58.Letter(54) == 0x77 && Base58.Letter(55) == 0x78 && Base58.Letter(56) == 0x79 && Base58.Letter(57) == 0x7a
  {
  }

  /** A letter stands for a digit exactly if it is the digit's own. */
  lemma DigitOf(d: nat, c: Byte)
    requires d < 58
    ensures Base58.IsLetter(c) && Base58.Digit(c) == d <==> c == Base58.Letter(d)
  {
    Base58.LetterIsLetter(d);
  }

  /** "2g" */
  lemma {:induction false} Text58Small()
    ensures Base58.Encoded([0x61]) == [0x32, 0x67]
  {
    hide Base58.Letter;
    Digits58();
    assert Base58.Value([0x61], 256) == 97 by { Value58Small(); }
    assert Base58.Written(97, 58) == [1, 39] by { Written58Small(); }
    assert Base58.LeadingZeroes([0x61]) == 0;
    assert Base58.Converted([0x61], 256, 58) == [1, 39];
  }

  lemma Value58Small()
    ensures Base58.Value([0x61], 256) == 97
  {
    hide Base58.Value;
    ValueNone();
    var s0: seq<nat> := [];
    var s1: seq<nat> := s0 + [0x61];
    ValueNext(s0, 0x61);
    assert s1 == [0x61];
  }

  lemma Written58Small()
    ensures Base58.Written(97, 58) == [1, 39]
  {
  }

  /** "a3gV" */
  lemma {:induction false} Text58Three()
    ensures Base58.Encoded([0x62, 0x62, 0x62]) == [0x61, 0x33, 0x67, 0x56]
  {
    hide Base58.Letter;
    Digits58();
    assert Base58.Value([0x62, 0x62, 0x62], 256) == 6447714 by { Value58Three(); }
    assert Base58.Written(6447714, 58) == [33, 2, 39, 28] by { Written58Three(); }
    assert Base58.LeadingZeroes([0x62, 0x62, 0x62]) == 0;
    assert Base58.Converted([0x62, 0x62, 0x62], 256, 58) == [33, 2, 39, 28];
  }

  lemma Value58Three()
    ensures Base58.Value([0x62, 0x62, 0x62], 256) == 6447714
  {
    hide Base58.Value;
    ValueNone();
    var s0: seq<nat> := [];
    var s1: seq<nat> := s0 + [0x62];
    ValueNext(s0, 0x62);
    var s2: seq<nat> := s1 + [0x62];
    ValueNext(s1, 0x62);
    var s3: seq<nat> := s2 + [0x62];
    ValueNext(s2, 0x62);
    assert s3 == [0x62, 0x62, 0x62];
  }

  lemma Written58Three()
    ensures Base58.Written(6447714, 58) == [33, 2, 39, 28]
  {
  }

  lemma ValueNone()
    ensures Base58.Value([], 256) == 0
  {
  }

  lemma ValueNext(s: seq<nat>, d: nat)
    ensures Base58.Value(s + [d], 256) == Base58.Value(s, 256) * 256 + d
  {
    assert (s + [d])[..|s|] == s;
  }

  /** Nothing, and ten zeroes, "1111111111". */
  lemma {:induction false} Text58Zeroes()
    ensures Base58.Encoded([]) == []
    ensures Base58.Encoded([0, 0, 0, 0, 0, 0, 0, 0, 0, 0]) == [0x31, 0x31, 0x31, 0x31, 0x31, 0x31, 0x31, 0x31, 0x31, 0x31]
  {
    ZeroesKept(0);
    ZeroesKept(10);
    var zeroes: Bytes := [0, 0, 0, 0, 0, 0, 0, 0, 0, 0];
    assert zeroes == Base58.Zeroes(10);
    var none: Bytes := [];
    assert none == Base58.Zeroes(0);
  }

  /** Zero bytes are ones. */
  lemma {:induction false} ZeroesKept(k: nat)
    ensures Base58.Encoded(Base58.Zeroes(k)) == seq(k, i => 0x31)
  {
    hide Base58.Value, Base58.LeadingZeroes;
    var s: Bytes := Base58.Zeroes(k);
    ValueOfZeroes(k);
    Base58.LeadingZeroesOf(k, []);
    assert Base58.Zeroes(k) + [] == s;
    assert Base58.Written(0, 58) == [];
    assert Base58.Converted(s, 256, 58) == Base58.Zeroes(k);
  }

  lemma ValueOfZeroes(k: nat)
    ensures Base58.Value(Base58.Zeroes(k), 256) == 0
  {
    Base58.ValueAfterZeroes(k, [], 256);
    assert Base58.Zeroes(k) + [] == Base58.Zeroes(k);
  }

  /** Spaces around a text are the six of the C locale. */
  lemma Spaces(c: Byte)
    ensures Base58.IsSpace(c) <==> c in [0x20, 0x09, 0x0a, 0x0b, 0x0c, 0x0d]
  {
  }

  // ---------------------------------------------------------------- compact numbers

  /** Size, sign and mantissa share a word of 32 bits as the top byte, a bit and the other 23. */
  lemma WordParts(c: nat)
    requires c < 0x1_0000_0000
    ensures c == Compact.SizeOf(c) * 16777216 + (if Compact.SignOf(c) then 8388608 else 0) + Compact.MantissaOf(c)
    ensures Compact.SizeOf(c) < 256 && Compact.MantissaOf(c) < 8388608
  {
  }

  lemma Powers256()
    ensures Pow(256, 0) == 1 && Pow(256, 1) == 256 && Pow(256, 2) == 65536 && Pow(256, 29) == 0x10000000000000000000000000000000000000000000000000000000000
  {
    assert Pow(256, 3) == 0x1000000 && Pow(256, 7) == 0x100000000000000;
    PowAdd(256, 7, 7);
    PowAdd(256, 14, 14);
    PowAdd(256, 28, 1);
  }

  /** Numbers read. */
  lemma {:induction false} Read256()
    ensures Compact.Meaning(0, 0x123456) == 0x0
    ensures Compact.Meaning(1, 0x3456) == 0x0
    ensures Compact.Meaning(1, 0x123456) == 0x12
    ensures Compact.Meaning(1, 0x7edcba) == 0x7e
    ensures Compact.Meaning(2, 0x56) == 0x0
    ensures Compact.Meaning(2, 0x123456) == 0x1234
    ensures Compact.Meaning(3, 0x123456) == 0x123456
    ensures Compact.Meaning(4, 0x123456) == 0x12345600
    ensures Compact.Meaning(5, 0x9234) == 0x92340000
    ensures Compact.Meaning(32, 0x123456) == 0x1234560000000000000000000000000000000000000000000000000000000000
  {
    hide Pow;
    Powers256();
    assert Pow(256, 3) == 16777216 by { Compact.SmallPowers(); }
  }

  /** Numbers written. */
  lemma {:induction false} Written256()
    ensures Compact.Encoded(0x0) == Compact.Form(0, 0x0)
    ensures Compact.Encoded(0x12) == Compact.Form(1, 0x120000)
    ensures Compact.Encoded(0x7e) == Compact.Form(1, 0x7e0000)
    ensures Compact.Encoded(0x80) == Compact.Form(2, 0x8000)
    ensures Compact.Encoded(0x1234) == Compact.Form(2, 0x123400)
    ensures Compact.Encoded(0x123456) == Compact.Form(3, 0x123456)
    ensures Compact.Encoded(0x12345600) == Compact.Form(4, 0x123456)
    ensures Compact.Encoded(0x92340000) == Compact.Form(5, 0x9234)
  {
    hide Pow;
    Powers256();
    assert Pow(256, 3) == 16777216 by { Compact.SmallPowers(); }
  }

  // ---------------------------------------------------------------- JSON

  /** [null, true, false, "x\n"] */
  function SampleArray(): Json.Value { Json.Arr([Json.Null, Json.True, Json.False, Json.Str([0x78, 10])]) }

  /** {"c": []} */
  function SampleObject(): Json.Value { Json.Obj([Json.Member([0x63], Json.Arr([]))]) }

  /** {"a": [null, true, false, "x\n"], "b": {"c": []}} */
  function Sample(): Json.Value { Json.Obj([Json.Member([0x61], SampleArray()), Json.Member([0x62], SampleObject())]) }

  lemma ItemsNext(v: Json.Value, rest: seq<Json.Value>, fmt: bool, d: nat)
    requires rest != []
    ensures Json.PrintItems([v] + rest, fmt, d) == Json.Print(v, fmt, d) + ([0x2c] + ((if fmt then [0x20] else []) + Json.PrintItems(rest, fmt, d)))
  {
    hide Json.Print;
    assert ([v] + rest)[1..] == rest;
  }

  lemma ItemsLast(v: Json.Value, fmt: bool, d: nat)
    ensures Json.PrintItems([v], fmt, d) == Json.Print(v, fmt, d) && Json.PrintItems([], fmt, d) == []
  {
    hide Json.Print;
  }

  lemma MembersNext(m: Json.Member, rest: seq<Json.Member>, fmt: bool, d: nat)
    ensures Json.PrintMembers([m] + rest, fmt, d) ==
      Json.MemberText(m, fmt, d, (if rest != [] then [0x2c] else []) + ((if fmt then [0x0a] else []) + Json.PrintMembers(rest, fmt, d)))
    ensures Json.PrintMembers([], fmt, d) == []
  {
    hide Json.MemberText;
    assert ([m] + rest)[1..] == rest;
  }

  lemma Words(fmt: bool, d: nat)
    ensures Json.Print(Json.Null, fmt, d) == [0x6e, 0x75, 0x6c, 0x6c]
    ensures Json.Print(Json.True, fmt, d) == [0x74, 0x72, 0x75, 0x65]
    ensures Json.Print(Json.False, fmt, d) == [0x66, 0x61, 0x6c, 0x73, 0x65]
    ensures Json.Print(Json.Str([0x78, 10]), fmt, d) == [0x22, 0x78, 0x5c, 0x6e, 0x22]
  {
    assert Json.Escaped([0x78, 10]) == [0x78, 0x5c, 0x6e] by {
      assert Json.Escaped([10]) == [0x5c, 0x6e];
    }
  }

  function ArrayBytes(fmt: bool): Bytes {
    if fmt then [0x5b, 0x6e, 0x75, 0x6c, 0x6c, 0x2c, 0x20, 0x74, 0x72, 0x75, 0x65, 0x2c, 0x20, 0x66, 0x61, 0x6c, 0x73, 0x65, 0x2c, 0x20, 0x22, 0x78, 0x5c, 0x6e, 0x22, 0x5d] else [0x5b, 0x6e, 0x75, 0x6c, 0x6c, 0x2c, 0x74, 0x72, 0x75, 0x65, 0x2c, 0x66, 0x61, 0x6c, 0x73, 0x65, 0x2c, 0x22, 0x78, 0x5c, 0x6e, 0x22, 0x5d]
  }

  function ObjectBytes(fmt: bool): Bytes {
    if fmt then [0x7b, 0x0a, 0x09, 0x09, 0x22, 0x63, 0x22, 0x3a, 0x09, 0x5b, 0x5d, 0x0a, 0x09, 0x7d] else [0x7b, 0x22, 0x63, 0x22, 0x3a, 0x5b, 0x5d, 0x7d]
  }

  lemma {:induction false} ArrayText(fmt: bool, d: nat)
    ensures Json.Print(SampleArray(), fmt, d) == ArrayBytes(fmt)
    ensures Json.Print(Json.Arr([]), fmt, d) == [0x5b, 0x5d]
  {
    hide Json.PrintItems, ArrayBytes;
    ArrayItems(fmt, d + 1);
    ItemsLast(Json.Null, fmt, d + 1);
    if fmt { ArrayWide(); } else { ArrayNarrow(); }
  }

  lemma {:induction false} ArrayItems(fmt: bool, d: nat)
    ensures var gap := if fmt then [0x20] else [];
      Json.PrintItems([Json.Null, Json.True, Json.False, Json.Str([0x78, 10])], fmt, d) ==
        [0x6e, 0x75, 0x6c, 0x6c] + ([0x2c] + (gap + ([0x74, 0x72, 0x75, 0x65] + ([0x2c] + (gap + ([0x66, 0x61, 0x6c, 0x73, 0x65] + ([0x2c] + (gap + [0x22, 0x78, 0x5c, 0x6e, 0x22]))))))))
  {
    hide Json.PrintItems, Json.Print;
    Words(fmt, d);
    var x := Json.Str([0x78, 10]);
    var three := [Json.False] + [x];
    var two := [Json.True] + three;
    assert [Json.Null, Json.True, Json.False, x] == [Json.Null] + two;
    ItemsNext(Json.Null, two, fmt, d);
    ItemsNext(Json.True, three, fmt, d);
    ItemsNext(Json.False, [x], fmt, d);
    ItemsLast(x, fmt, d);
  }

  lemma ArrayWide()
    ensures [0x5b] + ([0x6e, 0x75, 0x6c, 0x6c] + ([0x2c] + ([0x20] + ([0x74, 0x72, 0x75, 0x65] + ([0x2c] + ([0x20] + ([0x66, 0x61, 0x6c, 0x73, 0x65] + ([0x2c] + ([0x20] + [0x22, 0x78, 0x5c, 0x6e, 0x22]))))))))
      + [0x5d]) == ArrayBytes(true)
  {
  }

  lemma ArrayNarrow()
    ensures [0x5b] + ([0x6e, 0x75, 0x6c, 0x6c] + ([0x2c] + ([] + ([0x74, 0x72, 0x75, 0x65] + ([0x2c] + ([] + ([0x66, 0x61, 0x6c, 0x73, 0x65] + ([0x2c] + ([] + [0x22, 0x78, 0x5c, 0x6e, 0x22]))))))))
      + [0x5d]) == ArrayBytes(false)
  {
  }

  lemma Name(c: Byte)
    requires 0x61 <= c <= 0x63
    ensures Json.Quoted([c]) == [0x22, c, 0x22]
  {
    assert Json.Escaped([c]) == [c];
  }

  lemma {:induction false} ObjectText(fmt: bool)
    ensures Json.Print(SampleObject(), fmt, 1) == ObjectBytes(fmt)
  {
    hide Json.PrintMembers, Json.PrintItems, Json.Quoted, Json.Print;
    var m := Json.Member([0x63], Json.Arr([]));
    Name(0x63);
    ArrayText(fmt, 2);
    MembersNext(m, [], fmt, 2);
    assert [m] + [] == [m];
    assert Json.Tabs(1) == [9] && Json.Tabs(2) == [9, 9];
    ObjectIs([m], fmt);
  }

  lemma ObjectIs(ms: seq<Json.Member>, fmt: bool)
    ensures Json.Print(Json.Obj(ms), fmt, 1) ==
      [0x7b] + (Json.If(fmt, [10]) + (Json.PrintMembers(ms, fmt, 2) + (Json.If(fmt, Json.Tabs(1)) + [0x7d])))
  {
    hide Json.PrintMembers;
  }

  /** The sample on one line. */
  lemma {:induction false} SampleText()
    ensures Json.Print(Sample(), false, 0) == [0x7b, 0x22, 0x61, 0x22, 0x3a] + ArrayBytes(false) + [0x2c, 0x22, 0x62, 0x22, 0x3a] + ObjectBytes(false) + [0x7d]
  {
    hide Json.PrintMembers, Json.PrintItems, Json.Quoted, SampleArray, SampleObject, ArrayBytes, ObjectBytes;
    SampleMembers(false);
  }

  /** The sample with line breaks and tabs. */
  lemma {:induction false} SampleFormatted()
    ensures Json.Print(Sample(), true, 0) == [0x7b, 0x0a, 0x09, 0x22, 0x61, 0x22, 0x3a, 0x09] + ArrayBytes(true) + [0x2c, 0x0a, 0x09, 0x22, 0x62, 0x22, 0x3a, 0x09] + ObjectBytes(true) + [0x0a, 0x7d]
  {
    hide Json.PrintMembers, Json.PrintItems, Json.Quoted, SampleArray, SampleObject, ArrayBytes, ObjectBytes;
    SampleMembers(true);
    assert Json.Tabs(0) == [] && Json.Tabs(1) == [9];
  }

  lemma {:induction false} SampleMembers(fmt: bool)
    ensures var a, b := Json.Member([0x61], SampleArray()), Json.Member([0x62], SampleObject());
      && Json.PrintMembers([a, b], fmt, 1) ==
         Json.If(fmt, Json.Tabs(1)) + ([0x22, 0x61, 0x22] + ([0x3a] + (Json.If(fmt, [9]) + (ArrayBytes(fmt) + ([0x2c] + ((if fmt then [10] else []) +
           (Json.If(fmt, Json.Tabs(1)) + ([0x22, 0x62, 0x22] + ([0x3a] + (Json.If(fmt, [9]) + (ObjectBytes(fmt) + (if fmt then [10] else []))))))))))))
  {
    hide Json.PrintMembers, Json.PrintItems, Json.Quoted, SampleArray, SampleObject, ArrayBytes, ObjectBytes, Json.Print, Json.Tabs, Json.If;
    var a, b := Json.Member([0x61], SampleArray()), Json.Member([0x62], SampleObject());
    Name(0x61);
    Name(0x62);
    ArrayText(fmt, 1);
    ObjectText(fmt);
    MembersNext(a, [b], fmt, 1);
    MembersNext(b, [], fmt, 1);
    assert [b] + [] == [b] && [a] + [b] == [a, b];
    assert forall t: Bytes :: t + [] == t;
  }

  // ---------------------------------------------------------------- coins

  /** An output that pays to the hash of a key. */
  function PayTo(nValue: int, h: Bytes): CoinsLayers.TxOut { CoinsLayers.Out(nValue, ScriptForms.ToKeyHash(h)) }

  /** An output written: its compact amount, the tag 0 and the hash. */
  lemma {:induction false} PayToWritten(keys: Compressor.Keys, nValue: nat, x: nat, h: Bytes)
    requires |h| == 20 && nValue < 0x8000_0000_0000_0000 && Compressor.CompactAmount(nValue) == x < 0x1_0000_0000_0000_0000
    ensures CoinsCodec.InRange(PayTo(nValue, h))
    ensures CoinsCodec.WrittenOne(keys, PayTo(nValue, h)) == Streams.VarInt(x, false) + ([0] + h)
  {
    hide Streams.VarInt, Compressor.CompactAmount, Compressor.WrittenScript, ScriptForms.ToKeyHash;
    KeyHashWritten(keys, h);
    InSixtyFour(nValue);
  }

  lemma InSixtyFour(n: nat)
    requires n < 0x8000_0000_0000_0000
    ensures n % LIMIT64 == n
  {
  }

  lemma KeyHashWritten(keys: Compressor.Keys, h: Bytes)
    requires |h| == 20
    ensures Compressor.WrittenScript(keys, ScriptForms.ToKeyHash(h)) == [0] + h
  {
    hide Streams.VarInt;
    assert ScriptForms.ToKeyHash(h)[3..23] == h;
  }

  const HASH1: Bytes := [0x81, 0x61, 0x15, 0x94, 0x4e, 0x07, 0x7f, 0xe7, 0xc8, 0x03, 0xcf, 0xa5, 0x7f, 0x29, 0xb3, 0x6b, 0xf8, 0x7c, 0x1d, 0x35]
  const HASH2: Bytes := [0x61, 0xb0, 0x1c, 0xaa, 0xb5, 0x0f, 0x1b, 0x8e, 0x9c, 0x50, 0xa5, 0x05, 0x7e, 0xb4, 0x3c, 0x2d, 0x95, 0x63, 0xa4, 0xee]
  const HASH3: Bytes := [0x8c, 0x98, 0x8f, 0x1a, 0x4a, 0x4d, 0xe2, 0x16, 0x1e, 0x0f, 0x50, 0xaa, 0xc7, 0xf1, 0x7e, 0x7f, 0x95, 0x55, 0xca, 0xa4]

  /** 600 coins in the second of two outputs. */
  function TwoOutputs(): CoinsLayers.Coins {
    CoinsLayers.Coins(false, [CoinsLayers.Null, PayTo(60000000000, HASH1)], 203998, 1)
  }

  lemma {:induction false} TwoFields()
    ensures CoinsCodec.Fields(TwoOutputs()) && !CoinsLayers.IsPruned(TwoOutputs())
    ensures CoinsCodec.MaskOf(TwoOutputs().vout) == [] && CoinsCodec.HeaderCode(TwoOutputs()) == 4
  {
    hide ScriptForms.ToKeyHash;
    SixtyBillion();
    var v := TwoOutputs().vout;
    assert v[1].Out?;
    assert CoinsCodec.MaskOf(v) == [];
  }

  lemma SixtyBillion()
    ensures Compressor.CompactAmount(60000000000) == 600
  {
    ScriptForms.LongForm(60);
  }

  lemma {:induction false} OutsNext(keys: Compressor.Keys, o: CoinsLayers.TxOut, rest: seq<CoinsLayers.TxOut>)
    requires CoinsCodec.InRange(o) && CoinsCodec.AllInRange(rest)
    ensures CoinsCodec.AllInRange([o] + rest)
    ensures CoinsCodec.WrittenOuts(keys, [o] + rest) == CoinsCodec.WrittenOne(keys, o) + CoinsCodec.WrittenOuts(keys, rest)
    ensures CoinsCodec.WrittenOuts(keys, []) == []
  {
    hide CoinsCodec.WrittenOne, CoinsCodec.InRange;
    assert ([o] + rest)[1..] == rest;
  }

  /** The first example of the comment on the format, whatever the keys. */
  lemma {:induction false} FirstExample(keys: Compressor.Keys)
    ensures CoinsCodec.Fields(TwoOutputs()) && !CoinsLayers.IsPruned(TwoOutputs())
    ensures CoinsCodec.WrittenCoins(keys, TwoOutputs()) == [0x01, 0x04, 0x83, 0x58, 0x00] + HASH1 + [0x8b, 0xb8, 0x5e]
  {
    hide Streams.VarInt, CoinsCodec.WrittenOuts, CoinsCodec.WrittenOne, CoinsCodec.InRange, CoinsCodec.MaskOf, CoinsCodec.HeaderCode, CoinsCodec.Fields, CoinsLayers.IsPruned, ScriptForms.ToKeyHash, PayTo;
    TwoFields();
    SixtyBillion();
    FirstIntegers();
    var one := PayTo(60000000000, HASH1);
    PayToWritten(keys, 60000000000, 600, HASH1);
    assert CoinsCodec.InRange(CoinsLayers.Null) && CoinsCodec.WrittenOne(keys, CoinsLayers.Null) == [] by { NullWritten(keys); }
    assert CoinsCodec.AllInRange([]);
    OutsNext(keys, one, []);
    assert [one] + [] == [one];
    OutsNext(keys, CoinsLayers.Null, [one]);
    assert TwoOutputs().vout == [CoinsLayers.Null] + [one];
    assert CoinsCodec.WrittenOuts(keys, TwoOutputs().vout) == [0x83, 0x58] + ([0] + HASH1);
    Flattened([0x83, 0x58], HASH1, [0x8b, 0xb8, 0x5e]);
  }

  lemma Flattened(x: Bytes, h: Bytes, last: Bytes)
    ensures [1] + ([4] + ([] + ((x + ([0] + h)) + last))) == [1, 4] + x + [0] + h + last
  {
  }

  lemma NullWritten(keys: Compressor.Keys)
    ensures CoinsCodec.InRange(CoinsLayers.Null) && CoinsCodec.WrittenOne(keys, CoinsLayers.Null) == []
  {
  }

  lemma {:induction false} FirstIntegers()
    ensures Streams.VarInt(1, false) == [1] && Streams.VarInt(4, false) == [4]
    ensures Streams.VarInt(600, false) == [0x83, 0x58] && Streams.VarInt(203998, false) == [0x8b, 0xb8, 0x5e]
  {
    hide Streams.VarInt;
    Streams.VarIntUnfold(1, false);
    Streams.VarIntUnfold(4, false);
    Streams.VarIntUnfold(600, false);
    Streams.VarIntUnfold(3, true);
    Streams.VarIntUnfold(203998, false);
    Streams.VarIntUnfold(1592, true);
    Streams.VarIntUnfold(11, true);
  }

  function Nulls(k: nat): seq<CoinsLayers.TxOut> { seq(k, i => CoinsLayers.Null) }

  /** Two outputs left of seventeen, in a coinbase transaction. */
  function Seventeen(): CoinsLayers.Coins {
    CoinsLayers.Coins(true, Nulls(4) + ([PayTo(234925952, HASH2)] + (Nulls(11) + [PayTo(110397, HASH3)])), 120891, 1)
  }

  lemma {:induction false} NullsSkipped(keys: Compressor.Keys, k: nat, rest: seq<CoinsLayers.TxOut>)
    requires CoinsCodec.AllInRange(rest)
    ensures CoinsCodec.AllInRange(Nulls(k) + rest) && CoinsCodec.WrittenOuts(keys, Nulls(k) + rest) == CoinsCodec.WrittenOuts(keys, rest)
  {
    hide CoinsCodec.AllInRange, CoinsCodec.InRange, CoinsCodec.WrittenOuts, CoinsCodec.WrittenOne;
    if k == 0 {
      assert Nulls(0) + rest == rest;
    } else {
      NullsSkipped(keys, k - 1, rest);
      NullWritten(keys);
      OutsNext(keys, CoinsLayers.Null, Nulls(k - 1) + rest);
      assert Nulls(k) + rest == [CoinsLayers.Null] + (Nulls(k - 1) + rest);
    }
  }

  lemma SeventeenAt(i: nat)
    requires i < 17
    ensures |Seventeen().vout| == 17 && (Seventeen().vout[i].Out? <==> i == 4 || i == 16)
  {
    hide PayTo;
    assert PayTo(234925952, HASH2).Out? && PayTo(110397, HASH3).Out? by { IsOut(234925952, HASH2); IsOut(110397, HASH3); }
  }

  lemma IsOut(n: int, h: Bytes)
    ensures PayTo(n, h).Out?
  {
    hide ScriptForms.ToKeyHash;
  }

  lemma {:induction false} SeventeenMask()
    ensures CoinsCodec.MaskOf(Seventeen().vout) == [0x04, 0x40]
  {
    hide Seventeen, CoinsCodec.FromBits;
    var v := Seventeen().vout;
    SeventeenAt(0);
    forall i: nat ensures CoinsCodec.IsAvailable(v, i) <==> i == 4 || i == 16 { if i < 17 { SeventeenAt(i); } }
    hide CoinsCodec.IsAvailable;
    var e := CoinsCodec.Eight(v, 1);
    assert e[0] == e[1] == e[2] == e[3] == e[4] == e[5] == e[7] == false && e[6];
    assert CoinsCodec.Eight(v, 0) == [false, false, true, false, false, false, false, false];
    assert CoinsCodec.Eight(v, 1) == [false, false, false, false, false, false, true, false];
    EightBits();
    assert CoinsCodec.MaskByte(v, 0) == 4 && CoinsCodec.MaskByte(v, 1) == 64;
    assert CoinsCodec.FullSize(v) == 2 && CoinsCodec.LastUsed(v, 2) == 2;
    assert CoinsCodec.Mask(v, 2) == [0x04, 0x40];
  }

  lemma EightBits()
    ensures CoinsCodec.FromBits([false, false, true, false, false, false, false, false]) == 4
    ensures CoinsCodec.FromBits([false, false, false, false, false, false, true, false]) == 64
  {
    assert CoinsCodec.FromBits([true, false]) == 1;
    assert CoinsCodec.FromBits([false, false, true, false]) == 4;
    assert CoinsCodec.FromBits([false, false, false, false]) == 0;
  }

  lemma {:induction false} SeventeenFields(keys: Compressor.Keys)
    ensures CoinsCodec.Fields(Seventeen()) && !CoinsLayers.IsPruned(Seventeen()) && CoinsCodec.HeaderCode(Seventeen()) == 9
    ensures CoinsCodec.WrittenOuts(keys, Seventeen().vout) ==
      [0x86, 0xef, 0x97, 0xd5, 0x79] + ([0] + HASH2) + ([0xbb, 0xd1, 0x23] + ([0] + HASH3))
  {
    hide Streams.VarInt, CoinsCodec.WrittenOuts, CoinsCodec.WrittenOne, CoinsCodec.InRange, CoinsCodec.AllInRange, CoinsCodec.MaskOf, PayTo, Nulls;
    SecondIntegers();
    PayToWritten(keys, 234925952, 2114333561, HASH2);
    PayToWritten(keys, 110397, 993571, HASH3);
    var o4, o16 := PayTo(234925952, HASH2), PayTo(110397, HASH3);
    NoneInRange();
    OutsNext(keys, o16, []);
    assert [o16] + [] == [o16];
    NullsSkipped(keys, 11, [o16]);
    OutsNext(keys, o4, Nulls(11) + [o16]);
    NullsSkipped(keys, 4, [o4] + (Nulls(11) + [o16]));
    SeventeenAt(0);
    SeventeenAt(1);
    SeventeenAt(4);
    SeventeenMask();
    assert CoinsCodec.NonZero([0x04, 0x40]) == 2 by { assert [0x04, 0x40][..1] == [0x04]; }
  }

  lemma NoneInRange()
    ensures CoinsCodec.AllInRange([])
  {
  }

  lemma {:induction false} SecondIntegers()
    ensures Compressor.CompactAmount(234925952) == 2114333561 && Compressor.CompactAmount(110397) == 993571
    ensures Streams.VarInt(2114333561, false) == [0x86, 0xef, 0x97, 0xd5, 0x79] && Streams.VarInt(993571, false) == [0xbb, 0xd1, 0x23]
    ensures Streams.VarInt(120891, false) == [0x86, 0xaf, 0x3b] && Streams.VarInt(1, false) == [1] && Streams.VarInt(9, false) == [9]
  {
    hide Streams.VarInt, Compressor.CompactAmount;
    assert Pow(10, 0) == 1;
    ScriptForms.ShortForm(23492595, 2, 0);
    ScriptForms.ShortForm(11039, 7, 0);
    Streams.VarIntUnfold(2114333561, false);
    Streams.VarIntUnfold(16518229, true);
    Streams.VarIntUnfold(129047, true);
    Streams.VarIntUnfold(1007, true);
    Streams.VarIntUnfold(6, true);
    Streams.VarIntUnfold(993571, false);
    Streams.VarIntUnfold(7761, true);
    Streams.VarIntUnfold(59, true);
    Streams.VarIntUnfold(120891, false);
    Streams.VarIntUnfold(943, true);
    Streams.VarIntUnfold(1, false);
    Streams.VarIntUnfold(9, false);
  }

  /** The second example of the comment on the format. */
  lemma {:induction false} SecondExample(keys: Compressor.Keys)
    ensures CoinsCodec.Fields(Seventeen()) && !CoinsLayers.IsPruned(Seventeen())
    ensures CoinsCodec.WrittenCoins(keys, Seventeen()) ==
      [0x01, 0x09, 0x04, 0x40] + [0x86, 0xef, 0x97, 0xd5, 0x79] + [0x00] + HASH2 + [0xbb, 0xd1, 0x23] + [0x00] + HASH3 + [0x86, 0xaf, 0x3b]
  {
    hide Streams.VarInt, CoinsCodec.WrittenOuts, CoinsCodec.MaskOf, CoinsCodec.HeaderCode, CoinsCodec.Fields, CoinsLayers.IsPruned, PayTo, Nulls;
    SeventeenFields(keys);
    SeventeenMask();
    SecondIntegers();
    Strung([0x86, 0xef, 0x97, 0xd5, 0x79], HASH2, [0xbb, 0xd1, 0x23], HASH3, [0x86, 0xaf, 0x3b]);
  }

  lemma Strung(x: Bytes, h: Bytes, y: Bytes, k: Bytes, last: Bytes)
    ensures [1] + ([9] + ([0x04, 0x40] + ((x + ([0] + h) + (y + ([0] + k))) + last))) == [0x01, 0x09, 0x04, 0x40] + x + [0x00] + h + y + [0x00] + k + last
  {
  }
}
