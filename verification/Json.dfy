/**
 JSON text of trees of null, booleans, strings, arrays and objects: printing, parsing, and
 the round trip. Text is a sequence of bytes.
 */
module Json {
  import opened Common
  import opened Streams

  /** A string without a zero byte. */
  type Text = s: Bytes | 0 !in s

  datatype Value =
    | Null
    | False
    | True
    | Str(s: Text)
    | Arr(items: seq<Value>)
    | Obj(members: seq<Member>)

  datatype Member = Member(name: Text, value: Value)

  const NESTING_LIMIT: nat := 1000

  const QUOTE: Byte := 0x22
  const BACKSLASH: Byte := 0x5c
  const COMMA: Byte := 0x2c
  const COLON: Byte := 0x3a
  const OPEN_ARRAY: Byte := 0x5b
  const CLOSE_ARRAY: Byte := 0x5d
  const OPEN_OBJECT: Byte := 0x7b
  const CLOSE_OBJECT: Byte := 0x7d
  const LOWER_U: Byte := 0x75
  const NEWLINE: Byte := 10
  const TAB: Byte := 9
  const SPACE: Byte := 32

  const NULL_TEXT: Bytes := [0x6e, 0x75, 0x6c, 0x6c]
  const FALSE_TEXT: Bytes := [0x66, 0x61, 0x6c, 0x73, 0x65]
  const TRUE_TEXT: Bytes := [0x74, 0x72, 0x75, 0x65]

  /** How deep arrays and objects are nested. */
  function Depth(v: Value): nat
    decreases v
  {
    match v
    case Arr(items) => 1 + ItemsDepth(items)
    case Obj(members) => 1 + MembersDepth(members)
    case _ => 0
  }

  function Max(a: nat, b: nat): nat { if a < b then b else a }

  function ItemsDepth(items: seq<Value>): nat
    decreases items
  {
    if items == [] then 0 else Max(Depth(items[0]), ItemsDepth(items[1..]))
  }

  function MembersDepth(members: seq<Member>): nat
    decreases members
  {
    if members == [] then 0 else Max(Depth(members[0].value), MembersDepth(members[1..]))
  }

  // ---------------------------------------------------------------- printing

  function HexDigit(n: nat): Byte
    requires n < 16
  {
    if n < 10 then 0x30 + n else 0x61 + (n - 10)
  }

  predicate IsPlain(c: Byte) { c > 31 && c != QUOTE && c != BACKSLASH }

  /** The letter after the backslash for the characters that have one. */
  function Letter(c: Byte): Option<Byte> {
    if c == BACKSLASH || c == QUOTE then Some(c)
    else if c == 8 then Some(0x62)
    else if c == 12 then Some(0x66)
    else if c == 10 then Some(0x6e)
    else if c == 13 then Some(0x72)
    else if c == 9 then Some(0x74)
    else None
  }

  function EscapeByte(c: Byte): Bytes {
    if IsPlain(c) then [c]
    else if Letter(c).Some? then [BACKSLASH, Letter(c).value]
    else [BACKSLASH, LOWER_U, 0x30, 0x30, HexDigit(c / 16), HexDigit(c % 16)]
  }

  function Escaped(s: Bytes): Bytes { if s == [] then [] else EscapeByte(s[0]) + Escaped(s[1..]) }

  function Quoted(s: Bytes): Bytes { [QUOTE] + (Escaped(s) + [QUOTE]) }

  function Tabs(n: nat): Bytes { seq(n, i => TAB) }

  function If(b: bool, s: Bytes): Bytes { if b then s else [] }

  /** The text of a value at a depth of indentation. */
  function Print(v: Value, fmt: bool, depth: nat): Bytes
    decreases v
  {
    match v
    case Null => NULL_TEXT
    case False => FALSE_TEXT
    case True => TRUE_TEXT
    case Str(s) => Quoted(s)
    case Arr(items) => [OPEN_ARRAY] + (PrintItems(items, fmt, depth + 1) + [CLOSE_ARRAY])
    case Obj(members) =>
      [OPEN_OBJECT] + (If(fmt, [NEWLINE]) + (PrintMembers(members, fmt, depth + 1) + (If(fmt, Tabs(depth)) + [CLOSE_OBJECT])))
  }

  function PrintItems(items: seq<Value>, fmt: bool, depth: nat): Bytes
    decreases items
  {
    if items == [] then []
    else if |items| == 1 then Print(items[0], fmt, depth)
    else Print(items[0], fmt, depth) + ([COMMA] + (If(fmt, [SPACE]) + PrintItems(items[1..], fmt, depth)))
  }

  function PrintMembers(members: seq<Member>, fmt: bool, depth: nat): Bytes
    decreases members
  {
    if members == [] then []
    else MemberText(members[0], fmt, depth, If(|members| > 1, [COMMA]) + (If(fmt, [NEWLINE]) + PrintMembers(members[1..], fmt, depth)))
  }

  /** One member and what follows it. */
  function MemberText(m: Member, fmt: bool, depth: nat, after: Bytes): Bytes
    decreases m
  {
    If(fmt, Tabs(depth)) + (Quoted(m.name) + ([COLON] + (If(fmt, [TAB]) + (Print(m.value, fmt, depth) + after))))
  }

  // ---------------------------------------------------------------- parsing

  /** Skip whitespace, but never past the last byte. */
  function Skip(s: Bytes): (r: Bytes)
    ensures |r| <= |s|
  {
    if |s| > 1 && s[0] <= 32 then Skip(s[1..]) else s
  }

  predicate StartsWith(s: Bytes, t: Bytes) { |t| <= |s| && s[..|t|] == t }

  /** Where the string whose inside starts here is closed. */
  function Close(s: Bytes): (r: Option<nat>)
    ensures r.Some? ==> r.value < |s| && s[r.value] == QUOTE
    decreases |s|
  {
    if s == [] then None
    else if s[0] == QUOTE then Some(0)
    else
      var k := if s[0] == BACKSLASH then 2 else 1;
      if k > |s| then None
      else match Close(s[k..])
        case None => None
        case Some(n) => Some(n + k)
  }

  function HexValue(c: Byte): Option<nat> {
    if 0x30 <= c <= 0x39 then Some(c - 0x30)
    else if 0x41 <= c <= 0x46 then Some(10 + c - 0x41)
    else if 0x61 <= c <= 0x66 then Some(10 + c - 0x61)
    else None
  }

  /** Four hexadecimal digits; zero if one of them is none. */
  function Hex4(s: Bytes): (h: nat)
    requires |s| >= 4
    ensures h < 0x1_0000
  {
    var a, b, c, d := HexValue(s[0]), HexValue(s[1]), HexValue(s[2]), HexValue(s[3]);
    if a.None? || b.None? || c.None? || d.None? then 0
    else a.value * 0x1000 + b.value * 0x100 + c.value * 0x10 + d.value
  }

  function Utf8(c: nat): Bytes
    requires c <= 0x10FFFF
  {
    if c < 0x80 then [c]
    else if c < 0x800 then [0xC0 + c / 0x40, 0x80 + c % 0x40]
    else if c < 0x1_0000 then [0xE0 + c / 0x1000, 0x80 + c / 0x40 % 0x40, 0x80 + c % 0x40]
    else [0xF0 + c / 0x4_0000, 0x80 + c / 0x1000 % 0x40, 0x80 + c / 0x40 % 0x40, 0x80 + c % 0x40]
  }

  /** One or two sequences of the form \uXXXX: how long they are and the character they stand for. */
  function Utf16Literal(s: Bytes): (r: Option<(nat, nat)>)
    ensures r.Some? ==> 6 <= r.value.0 <= |s| && r.value.1 <= 0x10FFFF
  {
    if |s| < 6 then None else
    var first := Hex4(s[2..]);
    if 0xDC00 <= first <= 0xDFFF then None
    else if 0xD800 <= first <= 0xDBFF then
      if |s| < 12 || s[6] != BACKSLASH || s[7] != LOWER_U then None else
      var second := Hex4(s[8..]);
      if second < 0xDC00 || second > 0xDFFF then None
      else Some((12, 0x1_0000 + (first % 0x400) * 0x400 + second % 0x400))
    else Some((6, first))
  }

  /** The character for the letter after a backslash. */
  function Unletter(c: Byte): Option<Byte> {
    if c == 0x62 then Some(8)
    else if c == 0x66 then Some(12)
    else if c == 0x6e then Some(10)
    else if c == 0x72 then Some(13)
    else if c == 0x74 then Some(9)
    else if c == QUOTE || c == BACKSLASH || c == 0x2f then Some(c)
    else None
  }

  function Prepend(s: Bytes, r: Option<Bytes>): Option<Bytes> {
    match r
    case None => None
    case Some(t) => Some(s + t)
  }

  /** The inside of a string with its escape sequences resolved; behind its end stands the closing quote. */
  function Unescape(s: Bytes): Option<Bytes>
    decreases |s|
  {
    if s == [] then Some([])
    else if s[0] != BACKSLASH then Prepend([s[0]], Unescape(s[1..]))
    else
      var c := if |s| == 1 then QUOTE else s[1];
      if Unletter(c).Some? then Prepend([Unletter(c).value], Unescape(if |s| == 1 then [] else s[2..]))
      else if c == LOWER_U then
        match Utf16Literal(s)
        case None => None
        case Some((n, codepoint)) => Prepend(Utf8(codepoint), Unescape(s[n..]))
      else None
  }

  /** A string, as a C string sees it: up to its first zero byte. */
  function ParseString(s: Bytes): (r: Parsed<Bytes>)
    ensures r.Some? ==> 0 !in r.value.0 && |r.value.1| < |s|
  {
    if s == [] || s[0] != QUOTE then None else
    match Close(s[1..])
    case None => None
    case Some(n) =>
      match Unescape(s[1..][..n])
      case None => None
      case Some(t) => Some((CString(t), s[n + 2..]))
  }

  /** A value at the start of the text; numbers are not part of this model. */
  function ParseValue(s: Bytes, depth: nat): (r: Parsed<Value>)
    ensures r.Some? ==> |r.value.1| < |s|
    decreases |s|, 0
  {
    if StartsWith(s, NULL_TEXT) then Some((Null, s[4..]))
    else if StartsWith(s, FALSE_TEXT) then Some((False, s[5..]))
    else if StartsWith(s, TRUE_TEXT) then Some((True, s[4..]))
    else if s == [] then None
    else if s[0] == QUOTE then
      match ParseString(s)
      case None => None
      case Some((t, rest)) => Some((Str(t), rest))
    else if s[0] == OPEN_ARRAY then
      if depth >= NESTING_LIMIT then None else
      var t := Skip(s[1..]);
      if t == [] then None
      else if t[0] == CLOSE_ARRAY then Some((Arr([]), t[1..]))
      else
        match ParseItems(t, depth + 1)
        case None => None
        case Some((items, rest)) => Some((Arr(items), rest))
    else if s[0] == OPEN_OBJECT then
      if depth >= NESTING_LIMIT then None else
      var t := Skip(s[1..]);
      if t == [] then None
      else if t[0] == CLOSE_OBJECT then Some((Obj([]), t[1..]))
      else
        match ParseMembers(t, depth + 1)
        case None => None
        case Some((members, rest)) => Some((Obj(members), rest))
    else None
  }

  /** Elements up to the closing bracket. */
  function ParseItems(s: Bytes, depth: nat): (r: Parsed<seq<Value>>)
    ensures r.Some? ==> |r.value.1| < |s|
    decreases |s|, 1
  {
    match ParseValue(Skip(s), depth)
    case None => None
    case Some((v, rest)) =>
      var t := Skip(rest);
      if t == [] then None
      else if t[0] == COMMA then
        match ParseItems(t[1..], depth)
        case None => None
        case Some((more, rest')) => Some(([v] + more, rest'))
      else if t[0] == CLOSE_ARRAY then Some(([v], t[1..]))
      else None
  }

  /** Members up to the closing brace. */
  function ParseMembers(s: Bytes, depth: nat): (r: Parsed<seq<Member>>)
    ensures r.Some? ==> |r.value.1| < |s|
    decreases |s|, 1
  {
    match ParseString(Skip(s))
    case None => None
    case Some((name, r1)) =>
      var r2 := Skip(r1);
      if r2 == [] || r2[0] != COLON then None else
      match ParseValue(Skip(r2[1..]), depth)
      case None => None
      case Some((v, r3)) =>
        var t := Skip(r3);
        if t == [] then None
        else if t[0] == COMMA then
          match ParseMembers(t[1..], depth)
          case None => None
          case Some((more, rest')) => Some(([Member(name, v)] + more, rest'))
        else if t[0] == CLOSE_OBJECT then Some(([Member(name, v)], t[1..]))
        else None
  }

  /** What parsing a text gives; the buffer includes the terminator. */
  function Parse(text: Text, requireEnd: bool): Option<Value> {
    match ParseValue(Skip(text + [0]), 0)
    case None => None
    case Some((v, rest)) =>
      if requireEnd && (Skip(rest) == [] || Skip(rest)[0] != 0) then None else Some(v)
  }

  // ---------------------------------------------------------------- strings survive

  function Further(r: Option<nat>, k: nat): Option<nat> {
    match r
    case None => None
    case Some(n) => Some(n + k)
  }

  lemma CloseStep(s: Bytes)
    ensures s == [] ==> Close(s) == None
    ensures s != [] && s[0] == QUOTE ==> Close(s) == Some(0)
    ensures s != [] && s[0] != QUOTE && s[0] != BACKSLASH ==> Close(s) == Further(Close(s[1..]), 1)
    ensures s != [] && s[0] == BACKSLASH ==> Close(s) == if |s| < 2 then None else Further(Close(s[2..]), 2)
  {
  }

  lemma CloseOver(c: Byte, r: Bytes)
    requires Close(r).Some?
    ensures Close(EscapeByte(c) + r) == Some(Close(r).value + |EscapeByte(c)|)
  {
    hide Close;
    var e := EscapeByte(c);
    if IsPlain(c) {
      CloseDigits(e, r);
    } else if Letter(c).Some? {
      CloseEscape(e[1], r);
    } else {
      var digits := e[2..];
      CloseDigits(digits, r);
      CloseEscape(LOWER_U, digits + r);
      assert e + r == [BACKSLASH, LOWER_U] + (digits + r);
    }
  }

  lemma CloseEscape(x: Byte, r: Bytes)
    requires Close(r).Some?
    ensures Close([BACKSLASH, x] + r) == Some(Close(r).value + 2)
  {
    hide Close;
    DropTwo(x, r);
    CloseStep([BACKSLASH, x] + r);
  }

  lemma DropTwo(x: Byte, r: Bytes)
    ensures var s := [BACKSLASH, x] + r; |s| == 2 + |r| && s[0] == BACKSLASH && s[2..] == r
  {
  }

  lemma {:induction false} CloseDigits(e: Bytes, r: Bytes)
    requires (forall i :: 0 <= i < |e| ==> e[i] != QUOTE && e[i] != BACKSLASH) && Close(r).Some?
    ensures Close(e + r) == Some(Close(r).value + |e|)
  {
    if e == [] {
      assert e + r == r;
    } else {
      assert (e + r)[1..] == e[1..] + r;
      CloseDigits(e[1..], r);
    }
  }

  /** The closing quote that is found is the one that was written. */
  lemma {:induction false} CloseEscaped(s: Bytes, rest: Bytes)
    ensures Close(Escaped(s) + ([QUOTE] + rest)) == Some(|Escaped(s)|)
  {
    hide EscapeByte;
    var tail := [QUOTE] + rest;
    if s == [] {
      assert Escaped(s) + tail == tail;
    } else {
      CloseEscaped(s[1..], rest);
      assert Escaped(s) + tail == EscapeByte(s[0]) + (Escaped(s[1..]) + tail);
      CloseOver(s[0], Escaped(s[1..]) + tail);
    }
  }

  lemma UnescapeOver(c: Byte, r: Bytes)
    ensures Unescape(EscapeByte(c) + r) == Prepend([c], Unescape(r))
  {
    var e := EscapeByte(c);
    if IsPlain(c) {
      assert (e + r)[1..] == r;
    } else if Letter(c).Some? {
      assert (e + r)[2..] == r;
    } else {
      ControlLiteral(c, r);
      assert (e + r)[6..] == r;
    }
  }

  lemma ControlLiteral(c: Byte, r: Bytes)
    requires !IsPlain(c) && Letter(c).None?
    ensures Utf16Literal(EscapeByte(c) + r) == Some((6, c as nat)) && Utf8(c) == [c]
  {
    var s := EscapeByte(c) + r;
    assert s[2..][0] == 0x30 && s[2..][1] == 0x30 && s[2..][2] == HexDigit(c / 16) && s[2..][3] == HexDigit(c % 16);
    assert Hex4(s[2..]) == c;
  }

  lemma {:induction false} UnescapeEscaped(s: Bytes)
    ensures Unescape(Escaped(s)) == Some(s)
  {
    hide EscapeByte;
    if s != [] {
      UnescapeEscaped(s[1..]);
      UnescapeOver(s[0], Escaped(s[1..]));
      assert [s[0]] + s[1..] == s;
    }
  }

  /** A printed string is read back. */
  lemma StringTrip(s: Text, rest: Bytes)
    ensures ParseString(Quoted(s) + rest) == Some((s, rest))
  {
    hide Escaped, Unescape, Close;
    var all := Quoted(s) + rest;
    assert all[1..] == Escaped(s) + ([QUOTE] + rest);
    CloseEscaped(s, rest);
    assert all[1..][..|Escaped(s)|] == Escaped(s);
    UnescapeEscaped(s);
    CStringWhole(s);
    assert all[|Escaped(s)| + 2..] == rest;
  }

  // ---------------------------------------------------------------- whitespace

  predicate White(s: Bytes) { forall i :: 0 <= i < |s| ==> s[i] <= 32 }

  lemma {:induction false} SkipWhite(w: Bytes, r: Bytes)
    requires White(w) && r != [] && r[0] > 32
    ensures Skip(w + r) == r
  {
    if w == [] {
      assert w + r == r;
    } else {
      assert (w + r)[1..] == w[1..] + r;
      SkipWhite(w[1..], r);
    }
  }

  lemma {:induction false} SkipTwice(s: Bytes)
    ensures Skip(Skip(s)) == Skip(s)
  {
    if |s| > 1 && s[0] <= 32 { SkipTwice(s[1..]); }
  }

  /** Whitespace before elements and members does not matter. */
  lemma ItemsSkip(s: Bytes, t: Bytes, depth: nat)
    requires Skip(s) == Skip(t)
    ensures ParseItems(s, depth) == ParseItems(t, depth)
  {
    hide ParseValue, Skip;
  }

  lemma MembersSkip(s: Bytes, t: Bytes, depth: nat)
    requires Skip(s) == Skip(t)
    ensures ParseMembers(s, depth) == ParseMembers(t, depth)
  {
    hide ParseString, ParseValue, Skip;
  }

  // ---------------------------------------------------------------- values survive

  /** A printed value does not start with whitespace or a closing bracket. */
  lemma PrintStarts(v: Value, fmt: bool, d: nat)
    ensures var s := Print(v, fmt, d); s != [] && s[0] > 32 && s[0] != CLOSE_ARRAY
  {
    hide PrintItems, PrintMembers, Escaped;
  }

  /** What parsing gives back, unless the value is nested too deeply. */
  function Outcome<T>(ok: bool, v: T, rest: Bytes): Parsed<T> { if ok then Some((v, rest)) else None }

  lemma {:induction false} ValueTrip(v: Value, fmt: bool, d: nat, depth: nat, rest: Bytes)
    requires depth <= NESTING_LIMIT
    ensures ParseValue(Print(v, fmt, d) + rest, depth) == Outcome(depth + Depth(v) <= NESTING_LIMIT, v, rest)
    decreases v, 0
  {
    hide ParseValue, ParseItems, ParseMembers, Print, PrintItems, PrintMembers, ItemsDepth, MembersDepth, Tabs, White;
    match v
    case Null => KeywordTrip(v, fmt, d, depth, rest);
    case False => KeywordTrip(v, fmt, d, depth, rest);
    case True => KeywordTrip(v, fmt, d, depth, rest);
    case Str(s) => StrTrip(s, fmt, d, depth, rest);
    case Arr(items) =>
      if depth < NESTING_LIMIT && items != [] { ItemsTrip(items, fmt, d + 1, depth + 1, rest); }
      ArrTrip(items, fmt, d, depth, rest);
    case Obj(members) =>
      WhiteParts(fmt, d);
      if depth < NESTING_LIMIT && members != [] { MembersTrip(members, fmt, d + 1, depth + 1, If(fmt, Tabs(d)), rest); }
      ObjTrip(members, fmt, d, depth, rest);
  }

  lemma KeywordTrip(v: Value, fmt: bool, d: nat, depth: nat, rest: Bytes)
    requires v == Null || v == False || v == True
    ensures ParseValue(Print(v, fmt, d) + rest, depth) == Some((v, rest))
  {
    var s := Print(v, fmt, d) + rest;
    assert s[0] == Print(v, fmt, d)[0];
    NotKeyword(s, 0x6e);
    NotKeyword(s, 0x66);
    if v == False { assert s[..5] == FALSE_TEXT && s[5..] == rest; } else { assert s[..4] == Print(v, fmt, d) && s[4..] == rest; }
  }

  /** A text that starts with another letter is not the keyword. */
  lemma NotKeyword(s: Bytes, c: Byte)
    ensures StartsWith(s, NULL_TEXT) ==> s[0] == 0x6e
    ensures StartsWith(s, FALSE_TEXT) ==> s[0] == 0x66
    ensures StartsWith(s, TRUE_TEXT) ==> s[0] == 0x74
  {
    assert StartsWith(s, NULL_TEXT) ==> s[..4][0] == s[0];
    assert StartsWith(s, FALSE_TEXT) ==> s[..5][0] == s[0];
    assert StartsWith(s, TRUE_TEXT) ==> s[..4][0] == s[0];
  }

  lemma StrTrip(t: Text, fmt: bool, d: nat, depth: nat, rest: Bytes)
    ensures ParseValue(Print(Str(t), fmt, d) + rest, depth) == Some((Str(t), rest))
  {
    hide ParseString, Escaped, StartsWith;
    var s := Quoted(t) + rest;
    NotKeyword(s, 0);
    assert s[0] == QUOTE;
    StringTrip(t, rest);
  }

  lemma ArrTrip(items: seq<Value>, fmt: bool, d: nat, depth: nat, rest: Bytes)
    requires depth <= NESTING_LIMIT
    requires depth < NESTING_LIMIT && items != [] ==>
               ParseItems(PrintItems(items, fmt, d + 1) + ([CLOSE_ARRAY] + rest), depth + 1) == Outcome(depth + 1 + ItemsDepth(items) <= NESTING_LIMIT, items, rest)
    ensures ParseValue(Print(Arr(items), fmt, d) + rest, depth) == Outcome(depth + Depth(Arr(items)) <= NESTING_LIMIT, Arr(items), rest)
  {
    hide ParseItems, PrintItems, ItemsDepth, StartsWith, Skip;
    var inner := PrintItems(items, fmt, d + 1) + ([CLOSE_ARRAY] + rest);
    var s := Print(Arr(items), fmt, d) + rest;
    assert s == [OPEN_ARRAY] + inner;
    assert s[0] == OPEN_ARRAY && s[1..] == inner;
    NotKeyword(s, 0);
    ItemsStart(items, fmt, d + 1);
    if items == [] {
      assert inner == [CLOSE_ARRAY] + rest;
      assert inner[1..] == rest;
    }
    assert inner[0] > 32;
    assert Skip(inner) == inner by { SkipWhite([], inner); assert [] + inner == inner; }
  }

  lemma ItemsStart(items: seq<Value>, fmt: bool, d: nat)
    ensures if items == [] then PrintItems(items, fmt, d) == [] && ItemsDepth(items) == 0
            else PrintItems(items, fmt, d) != [] && PrintItems(items, fmt, d)[0] > 32 && PrintItems(items, fmt, d)[0] != CLOSE_ARRAY
  {
    hide Print;
    if items != [] { PrintStarts(items[0], fmt, d); }
  }

  lemma {:induction false} ItemsTrip(items: seq<Value>, fmt: bool, d: nat, depth: nat, rest: Bytes)
    requires depth <= NESTING_LIMIT && items != []
    ensures ParseItems(PrintItems(items, fmt, d) + ([CLOSE_ARRAY] + rest), depth) == Outcome(depth + ItemsDepth(items) <= NESTING_LIMIT, items, rest)
    decreases items, 1
  {
    hide Print, PrintItems, ParseValue, ParseItems, Depth, Skip;
    var tail := [CLOSE_ARRAY] + rest;
    var more := If(fmt, [SPACE]) + (PrintItems(items[1..], fmt, d) + tail);
    var after := if |items| == 1 then tail else [COMMA] + more;
    ItemsUnfold(items, fmt, d, tail, more, after);
    ValueTrip(items[0], fmt, d, depth, after);
    ItemNext(items[0], fmt, d, depth, after);
    if |items| == 1 {
      assert items[1..] == [] && items == [items[0]];
      assert tail[1..] == rest;
    } else {
      ItemsTrip(items[1..], fmt, d, depth, rest);
      ItemsStart(items[1..], fmt, d);
      assert White(If(fmt, [SPACE]));
      var x := PrintItems(items[1..], fmt, d) + tail;
      SkipWhite(If(fmt, [SPACE]), x);
      SkipWhite([], x);
      assert [] + x == x;
      ItemsSkip(more, x, depth);
      assert after[1..] == more;
      assert items == [items[0]] + items[1..];
    }
  }

  lemma ItemsUnfold(items: seq<Value>, fmt: bool, d: nat, tail: Bytes, more: Bytes, after: Bytes)
    requires items != [] && more == If(fmt, [SPACE]) + (PrintItems(items[1..], fmt, d) + tail)
    requires after == if |items| == 1 then tail else [COMMA] + more
    ensures PrintItems(items, fmt, d) + tail == Print(items[0], fmt, d) + after
    ensures ItemsDepth(items) == Max(Depth(items[0]), ItemsDepth(items[1..])) && ItemsDepth([]) == 0
  {
    hide Print, Depth;
  }

  /** The rest of a list after its first element. */
  function ItemsAfter(v: Value, t: Bytes, depth: nat): Parsed<seq<Value>>
    requires t != []
  {
    if t[0] == COMMA then
      match ParseItems(t[1..], depth)
      case None => None
      case Some((more, rest)) => Some(([v] + more, rest))
    else if t[0] == CLOSE_ARRAY then Some(([v], t[1..]))
    else None
  }

  /** Parsing a list whose first element has been parsed and is followed by a comma or a bracket. */
  lemma ItemNext(v: Value, fmt: bool, d: nat, depth: nat, after: Bytes)
    requires after != [] && after[0] > 32
    ensures var r := ParseValue(Print(v, fmt, d) + after, depth);
            && (r.None? ==> ParseItems(Print(v, fmt, d) + after, depth) == None)
            && (r == Some((v, after)) ==> ParseItems(Print(v, fmt, d) + after, depth) == ItemsAfter(v, after, depth))
  {
    hide Print, ParseValue, Skip;
    PrintStarts(v, fmt, d);
    var s := Print(v, fmt, d) + after;
    assert Skip(s) == s by { SkipWhite([], s); assert [] + s == s; }
    assert Skip(after) == after by { SkipWhite([], after); assert [] + after == after; }
  }

  lemma ObjTrip(members: seq<Member>, fmt: bool, d: nat, depth: nat, rest: Bytes)
    requires depth <= NESTING_LIMIT
    requires depth < NESTING_LIMIT && members != [] ==>
               ParseMembers(PrintMembers(members, fmt, d + 1) + (If(fmt, Tabs(d)) + ([CLOSE_OBJECT] + rest)), depth + 1)
               == Outcome(depth + 1 + MembersDepth(members) <= NESTING_LIMIT, members, rest)
    ensures ParseValue(Print(Obj(members), fmt, d) + rest, depth) == Outcome(depth + Depth(Obj(members)) <= NESTING_LIMIT, Obj(members), rest)
  {
    hide ParseMembers, PrintMembers, MembersDepth, StartsWith, Skip, Tabs;
    var inner := PrintMembers(members, fmt, d + 1) + (If(fmt, Tabs(d)) + ([CLOSE_OBJECT] + rest));
    var s := Print(Obj(members), fmt, d) + rest;
    assert s == [OPEN_OBJECT] + (If(fmt, [NEWLINE]) + inner);
    assert s[0] == OPEN_OBJECT && s[1..] == If(fmt, [NEWLINE]) + inner;
    NotKeyword(s, 0);
    var t := MembersStart(members, fmt, d, rest);
    SkipTwice(If(fmt, [NEWLINE]) + inner);
    if members != [] {
      SkipTwice(inner);
      MembersSkip(t, inner, depth + 1);
    }
  }

  /** After the opening brace: the closing one, or the quote of the first name. */
  lemma MembersStart(members: seq<Member>, fmt: bool, d: nat, rest: Bytes) returns (t: Bytes)
    ensures var inner := PrintMembers(members, fmt, d + 1) + (If(fmt, Tabs(d)) + ([CLOSE_OBJECT] + rest));
            t == Skip(If(fmt, [NEWLINE]) + inner) && Skip(t) == t && t != []
            && (if members == [] then t == [CLOSE_OBJECT] + rest && MembersDepth(members) == 0 else t[0] == QUOTE && t == Skip(inner))
  {
    hide Print, Quoted, White, Tabs, MemberText;
    var inner := PrintMembers(members, fmt, d + 1) + (If(fmt, Tabs(d)) + ([CLOSE_OBJECT] + rest));
    WhiteParts(fmt, d);
    var nl, tabs := If(fmt, [NEWLINE]), If(fmt, Tabs(d));
    if members == [] {
      t := [CLOSE_OBJECT] + rest;
      assert inner == tabs + t;
      Assoc(nl, tabs, t);
      WhiteJoin(nl, tabs);
      SkipWhite(nl + tabs, t);
    } else {
      var m, tail := members[0], tabs + ([CLOSE_OBJECT] + rest);
      var after := If(|members| > 1, [COMMA]) + (nl + (PrintMembers(members[1..], fmt, d + 1) + tail));
      MembersUnfold(members, fmt, d + 1, tail, nl + (PrintMembers(members[1..], fmt, d + 1) + tail), after);
      t := NameOn(m, fmt, d + 1, after);
      WhiteParts(fmt, d + 1);
      WhiteJoin(nl, If(fmt, Tabs(d + 1)));
      Assoc(nl, If(fmt, Tabs(d + 1)), t);
      SkipWhite(If(fmt, Tabs(d + 1)), t);
      SkipWhite(nl + If(fmt, Tabs(d + 1)), t);
    }
    SkipWhite([], t);
    assert [] + t == t;
  }

  /** A member's text from the quote of its name on. */
  lemma NameOn(m: Member, fmt: bool, d: nat, after: Bytes) returns (t: Bytes)
    ensures MemberText(m, fmt, d, after) == If(fmt, Tabs(d)) + t && t != [] && t[0] == QUOTE
  {
    hide Print, Tabs;
    t := Quoted(m.name) + ([COLON] + (If(fmt, [TAB]) + (Print(m.value, fmt, d) + after)));
  }

  lemma QuotedStarts(s: Bytes)
    ensures |Quoted(s)| >= 2 && Quoted(s)[0] == QUOTE
  {
  }

  lemma {:induction false} MembersTrip(members: seq<Member>, fmt: bool, d: nat, depth: nat, w: Bytes, rest: Bytes)
    requires depth <= NESTING_LIMIT && members != [] && White(w)
    ensures ParseMembers(PrintMembers(members, fmt, d) + (w + ([CLOSE_OBJECT] + rest)), depth)
         == Outcome(depth + MembersDepth(members) <= NESTING_LIMIT, members, rest)
    decreases members, 1
  {
    hide Print, PrintMembers, ParseValue, ParseMembers, ParseString, Depth, Skip, Quoted, Tabs, White;
    var tail := w + ([CLOSE_OBJECT] + rest);
    var more := If(fmt, [NEWLINE]) + (PrintMembers(members[1..], fmt, d) + tail);
    var after := If(|members| > 1, [COMMA]) + more;
    var m := members[0];
    MembersUnfold(members, fmt, d, tail, more, after);
    ValueTrip(m.value, fmt, d, depth, after);
    StringTrip(m.name, [COLON] + (If(fmt, [TAB]) + (Print(m.value, fmt, d) + after)));
    WhiteParts(fmt, d);
    if |members| == 1 {
      assert members[1..] == [] && members == [m];
      var t := [CLOSE_OBJECT] + rest;
      assert PrintMembers([], fmt, d) == [] by { NoMembers(fmt, d); }
      assert after == (If(fmt, [NEWLINE]) + w) + t;
      assert White(If(fmt, [NEWLINE]) + w) by { WhiteJoin(If(fmt, [NEWLINE]), w); }
      SkipWhite(If(fmt, [NEWLINE]) + w, t);
      assert t[1..] == rest;
      MemberNext(m, fmt, d, depth, after, t);
    } else {
      MembersTrip(members[1..], fmt, d, depth, w, rest);
      assert after == [COMMA] + more;
      SkipWhite([], after);
      assert [] + after == after;
      MemberNext(m, fmt, d, depth, after, after);
      assert after[1..] == more;
      var x := PrintMembers(members[1..], fmt, d) + tail;
      MembersSpaced(members[1..], fmt, d, tail);
      MembersSkip(more, x, depth);
      assert members == [m] + members[1..];
    }
  }

  lemma NoMembers(fmt: bool, d: nat)
    ensures PrintMembers([], fmt, d) == []
  {
  }

  lemma WhiteJoin(a: Bytes, b: Bytes)
    requires White(a) && White(b)
    ensures White(a + b)
  {
  }

  lemma WhiteParts(fmt: bool, d: nat)
    ensures White(If(fmt, [NEWLINE])) && White(If(fmt, Tabs(d))) && White(If(fmt, [TAB])) && White([])
  {
  }

  /** A line break before the next member does not matter. */
  lemma MembersSpaced(members: seq<Member>, fmt: bool, d: nat, tail: Bytes)
    requires members != []
    ensures Skip(If(fmt, [NEWLINE]) + (PrintMembers(members, fmt, d) + tail)) == Skip(PrintMembers(members, fmt, d) + tail)
  {
    hide Print, Quoted;
    var x := PrintMembers(members, fmt, d) + tail;
    QuotedStarts(members[0].name);
    LongMember(members, fmt, d);
    if fmt { assert ([NEWLINE] + x)[1..] == x; } else { assert [] + x == x; }
  }

  lemma LongMember(members: seq<Member>, fmt: bool, d: nat)
    requires members != []
    ensures |PrintMembers(members, fmt, d)| > 1
  {
    hide Print, Quoted, Tabs;
    QuotedStarts(members[0].name);
  }

  lemma {:induction false} MembersUnfold(members: seq<Member>, fmt: bool, d: nat, tail: Bytes, more: Bytes, after: Bytes)
    requires members != [] && more == If(fmt, [NEWLINE]) + (PrintMembers(members[1..], fmt, d) + tail)
    requires after == If(|members| > 1, [COMMA]) + more
    ensures PrintMembers(members, fmt, d) + tail == MemberText(members[0], fmt, d, after)
    ensures MembersDepth(members) == Max(Depth(members[0].value), MembersDepth(members[1..])) && MembersDepth([]) == 0
  {
    hide Depth, MemberText;
    var rest := PrintMembers(members[1..], fmt, d);
    Assoc(If(fmt, [NEWLINE]), rest, tail);
    Assoc(If(|members| > 1, [COMMA]), If(fmt, [NEWLINE]) + rest, tail);
    MemberTextTail(members[0], fmt, d, If(|members| > 1, [COMMA]) + (If(fmt, [NEWLINE]) + rest), tail);
  }

  lemma Assoc(a: Bytes, b: Bytes, c: Bytes)
    ensures (a + b) + c == a + (b + c)
  {
  }

  lemma MemberTextTail(m: Member, fmt: bool, d: nat, after: Bytes, tail: Bytes)
    ensures MemberText(m, fmt, d, after) + tail == MemberText(m, fmt, d, after + tail)
  {
    hide Print, Quoted, Tabs;
    var v := Print(m.value, fmt, d);
    var x1 := v + after;
    var x2 := If(fmt, [TAB]) + x1;
    var x3 := [COLON] + x2;
    var x4 := Quoted(m.name) + x3;
    Assoc(v, after, tail);
    Assoc(If(fmt, [TAB]), x1, tail);
    Assoc([COLON], x2, tail);
    Assoc(Quoted(m.name), x3, tail);
    Assoc(If(fmt, Tabs(d)), x4, tail);
  }

  /** The rest of a list of members after the first. */
  function MembersAfter(m: Member, t: Bytes, depth: nat): Parsed<seq<Member>>
    requires t != []
  {
    if t[0] == COMMA then
      match ParseMembers(t[1..], depth)
      case None => None
      case Some((more, rest)) => Some(([m] + more, rest))
    else if t[0] == CLOSE_OBJECT then Some(([m], t[1..]))
    else None
  }

  /** Parsing a member list whose first member has been parsed; `t` is what follows it after whitespace. */
  lemma MemberNext(m: Member, fmt: bool, d: nat, depth: nat, after: Bytes, t: Bytes)
    requires Skip(after) == t && t != []
    requires var colon := [COLON] + (If(fmt, [TAB]) + (Print(m.value, fmt, d) + after)); ParseString(Quoted(m.name) + colon) == Some((m.name, colon))
    ensures var r := ParseValue(Print(m.value, fmt, d) + after, depth);
            var all := ParseMembers(MemberText(m, fmt, d, after), depth);
            && (r.None? ==> all == None)
            && (r == Some((m.value, after)) ==> all == MembersAfter(m, t, depth))
  {
    hide Print, ParseValue, ParseString, Skip, Quoted, Tabs, White;
    var value := Print(m.value, fmt, d) + after;
    var colon := [COLON] + (If(fmt, [TAB]) + value);
    var s := MemberText(m, fmt, d, after);
    WhiteParts(fmt, d);
    QuotedStarts(m.name);
    SkipWhite(If(fmt, Tabs(d)), Quoted(m.name) + colon);
    SkipWhite([], colon);
    assert [] + colon == colon;
    PrintStarts(m.value, fmt, d);
    SkipWhite(If(fmt, [TAB]), value);
    assert colon[1..] == If(fmt, [TAB]) + value;
    assert m == Member(m.name, m.value);
  }

  /**
   Parsing what was printed, formatted or not, gives back the same tree exactly if it is
   nested at most a thousand deep; otherwise parsing fails.
   */
  lemma RoundTrip(v: Value, fmt: bool, requireEnd: bool)
    ensures 0 !in Print(v, fmt, 0)
    ensures Parse(Print(v, fmt, 0), requireEnd) == if Depth(v) <= 1000 then Some(v) else None
  {
    hide Print, ParseValue, Depth;
    PrintHasNoZero(v, fmt, 0);
    ValueTrip(v, fmt, 0, 0, [0]);
    PrintStarts(v, fmt, 0);
    var s := Print(v, fmt, 0) + [0];
    SkipWhite([], s);
    assert [] + s == s;
    assert Skip([0]) == [0];
  }

  lemma {:induction false} PrintHasNoZero(v: Value, fmt: bool, d: nat)
    ensures 0 !in Print(v, fmt, d)
    decreases v, 0
  {
    match v
    case Null =>
    case False =>
    case True =>
    case Str(s) => EscapedHasNoZero(s);
    case Arr(items) => ItemsHaveNoZero(items, fmt, d + 1);
    case Obj(members) => MembersHaveNoZero(members, fmt, d + 1);
  }

  lemma {:induction false} EscapedHasNoZero(s: Bytes)
    ensures 0 !in Escaped(s)
  {
    if s != [] { EscapedHasNoZero(s[1..]); }
  }

  lemma {:induction false} ItemsHaveNoZero(items: seq<Value>, fmt: bool, d: nat)
    ensures 0 !in PrintItems(items, fmt, d)
    decreases items, 1
  {
    hide Print;
    if items != [] {
      PrintHasNoZero(items[0], fmt, d);
      ItemsHaveNoZero(items[1..], fmt, d);
    }
  }

  lemma {:induction false} MembersHaveNoZero(members: seq<Member>, fmt: bool, d: nat)
    ensures 0 !in PrintMembers(members, fmt, d)
    decreases members, 1
  {
    hide Print, Escaped;
    if members != [] {
      EscapedHasNoZero(members[0].name);
      PrintHasNoZero(members[0].value, fmt, d);
      MembersHaveNoZero(members[1..], fmt, d);
    }
  }
}
