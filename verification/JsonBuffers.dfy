/**
 The JSON printer and parser on their buffers.
 */
module JsonBuffers {
  import opened Common
  import opened Streams
  import opened Json

  // ---------------------------------------------------------------- printing

  lemma {:induction false} EscapedConcat(s: Bytes, t: Bytes)
    ensures Escaped(s + t) == Escaped(s) + Escaped(t)
  {
    hide EscapeByte;
    if s == [] {
      assert s + t == t;
    } else {
      assert (s + t)[1..] == s[1..] + t;
      EscapedConcat(s[1..], t);
    }
  }

  lemma {:induction false} EscapedAt(s: Bytes, i: nat)
    requires i < |s|
    ensures Escaped(s[..i + 1]) == Escaped(s[..i]) + EscapeByte(s[i])
    ensures Escaped(s) == Escaped(s[..i]) + (EscapeByte(s[i]) + Escaped(s[i + 1..]))
  {
    hide EscapeByte, Escaped;
    SplitAt(s, i);
    EscapedAround(s[..i], s[i], s[i + 1..]);
  }

  lemma SplitAt(s: Bytes, i: nat)
    requires i < |s|
    ensures s[..i + 1] == s[..i] + [s[i]] && s == s[..i] + ([s[i]] + s[i + 1..])
  {
  }

  lemma EscapedAround(a: Bytes, c: Byte, r: Bytes)
    ensures Escaped(a + [c]) == Escaped(a) + EscapeByte(c)
    ensures Escaped(a + ([c] + r)) == Escaped(a) + (EscapeByte(c) + Escaped(r))
  {
    hide EscapeByte, Escaped;
    EscapedOne(a, c);
    EscapedCons([c] + r);
    assert ([c] + r)[1..] == r;
    EscapedConcat(a, [c] + r);
  }

  lemma EscapedOne(a: Bytes, c: Byte)
    ensures Escaped(a + [c]) == Escaped(a) + EscapeByte(c)
  {
    hide EscapeByte, Escaped;
    EscapedCons([c]);
    NothingEscaped();
    assert [c][1..] == [];
    assert EscapeByte(c) + [] == EscapeByte(c);
    EscapedConcat(a, [c]);
  }

  lemma EscapedCons(s: Bytes)
    requires s != []
    ensures Escaped(s) == EscapeByte(s[0]) + Escaped(s[1..])
  {
    hide EscapeByte;
  }

  /** How many characters an escape adds. */
  function Extra(c: Byte): nat { if IsPlain(c) then 0 else if Letter(c).Some? then 1 else 5 }

  lemma EscapeLength(c: Byte)
    ensures |EscapeByte(c)| == 1 + Extra(c)
  {
  }

  class PrintBuffer {
    /** What stands before the terminator. */
    var text: Bytes
    /** Where writing goes on. */
    var offset: nat
    var depth: nat
    const format: bool

    constructor (format: bool)
      ensures Valid() && text == [] && offset == 0 && depth == 0 && this.format == format
    {
      text, offset, depth, this.format := [], 0, 0, format;
    }

    predicate Valid()
      reads this
    {
      offset <= |text|
    }

    /** What has been written and will not be overwritten. */
    function Done(): Bytes
      requires Valid()
      reads this
    {
      text[..offset]
    }

    /** Write at the offset and terminate, leaving the offset where it is. */
    method Put(s: Bytes)
      requires Valid()
      modifies this`text
      ensures Valid() && text == old(Done()) + s && Done() == old(Done())
    {
      text := text[..offset] + s;
    }

    /** Write at the offset and move on. */
    method Append(s: Bytes)
      requires Valid()
      modifies this`text, this`offset
      ensures Valid() && Done() == text == old(Done()) + s
    {
      text := text[..offset] + s;
      offset := offset + |s|;
    }

    method UpdateOffset()
      requires Valid()
      modifies this`offset
      ensures Valid() && Done() == text
    {
      offset := |text|;
    }

    /** The length computed beforehand is the number of bytes written. */
    method PrintString(input: Text)
      requires Valid()
      modifies this`text
      ensures Valid() && text == old(Done()) + Quoted(input) && Done() == old(Done())
    {
      hide EscapeByte, IsPlain, Letter, Escaped, Extra;
      var escapeCharacters := 0;
      assert input[..0] == [];
      NothingEscaped();
      for i := 0 to |input|
        invariant text == old(text) && i + escapeCharacters == |Escaped(input[..i])|
      {
        EscapedAt(input, i);
        EscapeLength(input[i]);
        escapeCharacters := escapeCharacters + CountExtra(input[i]);
      }
      assert input[..|input|] == input;
      var outputLength := |input| + escapeCharacters;
      var output := new Byte[outputLength + 3](i => 0);
      output[0] := QUOTE;
      if escapeCharacters == 0 {
        NothingToEscape(input);
        for i := 0 to |input|
          invariant text == old(text) && output[0] == QUOTE && output[1..1 + i] == input[..i]
        {
          output[1 + i] := input[i];
        }
        assert output[1..1 + |input|] == Escaped(input);
      } else {
        WriteEscaped(input, output);
      }
      output[outputLength + 1] := QUOTE;
      output[outputLength + 2] := 0;
      assert output[..outputLength + 2] == [QUOTE] + (output[1..1 + outputLength] + [QUOTE]);
      Put(output[..outputLength + 2]);
    }

    function CountExtra(c: Byte): (n: nat)
      ensures n == Extra(c)
    {
      if c == QUOTE || c == BACKSLASH || c == 8 || c == 12 || c == 10 || c == 13 || c == 9 then 1
      else if c < 32 then 5
      else 0
    }

    /** Every escape in its place behind the opening quote. */
    method WriteEscaped(input: Text, output: array<Byte>)
      requires output.Length == |Escaped(input)| + 3 && output[0] == QUOTE
      modifies output
      ensures output[0] == QUOTE && output[1..1 + |Escaped(input)|] == Escaped(input)
    {
      hide EscapeByte, IsPlain, Letter, Escaped;
      var p := 1;
      assert input[..0] == [];
      NothingEscaped();
      for i := 0 to |input|
        invariant 1 <= p <= 1 + |Escaped(input)| && p == 1 + |Escaped(input[..i])|
        invariant output[0] == QUOTE && output[1..p] == Escaped(input[..i])
      {
        EscapedAt(input, i);
        p := WriteEscape(input[i], output, p);
      }
      assert input[..|input|] == input;
    }

    method WriteEscape(c: Byte, output: array<Byte>, from: nat) returns (p: nat)
      requires from + |EscapeByte(c)| <= output.Length
      modifies output
      ensures p == from + |EscapeByte(c)|
      ensures output[..p] == old(output[..from]) + EscapeByte(c)
    {
      p := from;
      if c > 31 && c != QUOTE && c != BACKSLASH {
        output[p] := c;
      } else {
        output[p] := BACKSLASH;
        p := p + 1;
        if c == BACKSLASH { output[p] := BACKSLASH; }
        else if c == QUOTE { output[p] := QUOTE; }
        else if c == 8 { output[p] := 0x62; }
        else if c == 12 { output[p] := 0x66; }
        else if c == 10 { output[p] := 0x6e; }
        else if c == 13 { output[p] := 0x72; }
        else if c == 9 { output[p] := 0x74; }
        else {
          output[p], output[p + 1], output[p + 2], output[p + 3], output[p + 4] := LOWER_U, 0x30, 0x30, HexDigit(c / 16), HexDigit(c % 16);
          p := p + 4;
        }
      }
      p := p + 1;
    }

    method PrintValue(v: Value)
      requires Valid()
      modifies this
      ensures Valid() && text == old(Done()) + Print(v, format, old(depth)) && depth == old(depth)
      decreases v, 2
    {
      hide PrintItems, PrintMembers, Quoted;
      match v
      case Null => Put(NULL_TEXT);
      case False => Put(FALSE_TEXT);
      case True => Put(TRUE_TEXT);
      case Str(s) => PrintString(s);
      case Arr(items) => PrintArray(v);
      case Obj(members) => PrintObject(v);
    }

    method PrintArray(v: Value)
      requires Valid() && v.Arr?
      modifies this
      ensures Valid() && text == old(Done()) + Print(v, format, old(depth)) && depth == old(depth)
      decreases v, 0
    {
      hide PrintItems, Print;
      var items := v.items;
      ArrText(items, format, depth);
      Append([OPEN_ARRAY]);
      depth := depth + 1;
      ghost var goal := old(Done()) + [OPEN_ARRAY] + PrintItems(items, format, depth);
      assert items[0..] == items;
      for i := 0 to |items|
        invariant Valid() && depth == old(depth) + 1 && Done() + PrintItems(items[i..], format, depth) == goal
      {
        ItemsAt(items, format, depth, i);
        ghost var was := Done();
        PrintValue(items[i]);
        UpdateOffset();
        ghost var more := PrintItems(items[i + 1..], format, depth);
        if i + 1 < |items| {
          Append([COMMA] + If(format, [SPACE]));
          Assoc4(was, Print(items[i], format, depth), [COMMA], If(format, [SPACE]), more);
        } else {
          assert was + (Print(items[i], format, depth) + []) == Done() + [];
        }
      }
      assert Done() + [] == Done();
      NoItems(format, depth);
      assert items[|items|..] == [];
      Put([CLOSE_ARRAY]);
      depth := depth - 1;
      assert text == old(Done()) + [OPEN_ARRAY] + PrintItems(items, format, depth + 1) + [CLOSE_ARRAY];
      Assoc3(old(Done()), [OPEN_ARRAY], PrintItems(items, format, depth + 1), [CLOSE_ARRAY]);
    }

    method AppendTabs(n: nat)
      requires Valid()
      modifies this`text, this`offset
      ensures Valid() && Done() == text == old(Done()) + Tabs(n)
    {
      Append([]);
      for i := 0 to n
        invariant Valid() && Done() == text == old(Done()) + Tabs(i)
      {
        assert Tabs(i + 1) == Tabs(i) + [TAB];
        Append([TAB]);
      }
    }

    method PrintObject(v: Value)
      requires Valid() && v.Obj?
      modifies this
      ensures Valid() && text == old(Done()) + Print(v, format, old(depth)) && depth == old(depth)
      decreases v, 1
    {
      hide PrintMembers, Print, Tabs, MemberText;
      var members := v.members;
      ObjText(members, format, depth);
      Append([OPEN_OBJECT] + If(format, [NEWLINE]));
      depth := depth + 1;
      ghost var goal := Done() + PrintMembers(members, format, depth);
      assert members[0..] == members;
      for i := 0 to |members|
        invariant Valid() && depth == old(depth) + 1 && Done() + PrintMembers(members[i..], format, depth) == goal
      {
        ghost var was := Done();
        assert members[i..][1..] == members[i + 1..];
        PrintMember(v, i);
        MembersAt(members, format, depth, i);
        MemberTextEnds(members[i], format, depth, If(i + 1 < |members|, [COMMA]) + If(format, [NEWLINE]), PrintMembers(members[i + 1..], format, depth));
        Assoc(was, MemberText(members[i], format, depth, If(i + 1 < |members|, [COMMA]) + If(format, [NEWLINE])), PrintMembers(members[i + 1..], format, depth));
        Assoc(If(i + 1 < |members|, [COMMA]), If(format, [NEWLINE]), PrintMembers(members[i + 1..], format, depth));
      }
      assert Done() + [] == Done();
      NoMembers(format, depth);
      assert members[|members|..] == [];
      ghost var was := Done();
      var tabs: Bytes := [];
      if format { tabs := seq(depth - 1, i => TAB); }
      TabsAre(depth - 1);
      Put(tabs + [CLOSE_OBJECT]);
      depth := depth - 1;
      Assoc5(old(Done()), [OPEN_OBJECT], If(format, [NEWLINE]), PrintMembers(members, format, depth + 1), If(format, Tabs(depth)) + [CLOSE_OBJECT]);
    }

    /** One member with its comma and line break. */
    method PrintMember(v: Value, i: nat)
      requires Valid() && v.Obj? && i < |v.members|
      modifies this
      ensures Valid() && depth == old(depth)
      ensures Done() == old(Done()) + MemberText(v.members[i], format, depth, If(i + 1 < |v.members|, [COMMA]) + If(format, [NEWLINE]))
      decreases v, 0
    {
      hide Print, Tabs, Quoted;
      var m := v.members[i];
      if format { AppendTabs(depth); }
      ghost var d0 := Done();
      assert d0 == old(Done()) + If(format, Tabs(depth));
      PrintString(m.name);
      UpdateOffset();
      Append([COLON] + If(format, [TAB]));
      ghost var d1 := Done();
      PrintValue(m.value);
      UpdateOffset();
      ghost var end := If(i + 1 < |v.members|, [COMMA]) + If(format, [NEWLINE]);
      Append(If(i + 1 < |v.members|, [COMMA]) + If(format, [NEWLINE]));
      MemberRegroup(old(Done()), m, format, depth, end);
    }
  }

  lemma Assoc3(a: Bytes, b: Bytes, c: Bytes, d: Bytes)
    ensures ((a + b) + c) + d == a + (b + (c + d))
  {
    Assoc(a + b, c, d);
    Assoc(a, b, c + d);
  }

  lemma Assoc4(a: Bytes, b: Bytes, c: Bytes, d: Bytes, e: Bytes)
    ensures ((a + b) + (c + d)) + e == a + (b + (c + (d + e)))
  {
    Assoc(a + b, c + d, e);
    Assoc(a, b, (c + d) + e);
    Assoc(c, d, e);
  }

  lemma Assoc5(a: Bytes, b: Bytes, c: Bytes, d: Bytes, e: Bytes)
    ensures ((a + (b + c)) + d) + e == a + (b + (c + (d + e)))
  {
    Assoc(a + (b + c), d, e);
    Assoc(a, b + c, d + e);
    Assoc(b, c, d + e);
  }

  lemma ArrText(items: seq<Value>, fmt: bool, d: nat)
    ensures Print(Arr(items), fmt, d) == [OPEN_ARRAY] + (PrintItems(items, fmt, d + 1) + [CLOSE_ARRAY])
  {
  }

  lemma ObjText(members: seq<Member>, fmt: bool, d: nat)
    ensures Print(Obj(members), fmt, d)
         == [OPEN_OBJECT] + (If(fmt, [NEWLINE]) + (PrintMembers(members, fmt, d + 1) + (If(fmt, Tabs(d)) + [CLOSE_OBJECT])))
  {
  }

  lemma NoItems(fmt: bool, d: nat)
    ensures PrintItems([], fmt, d) == []
  {
  }

  lemma TabsAre(n: nat)
    ensures Tabs(n) == seq(n, i => TAB)
  {
  }

  lemma ItemsAt(items: seq<Value>, fmt: bool, d: nat, i: nat)
    requires i < |items|
    ensures PrintItems(items[i..], fmt, d) == Print(items[i], fmt, d)
              + (if i + 1 < |items| then [COMMA] + (If(fmt, [SPACE]) + PrintItems(items[i + 1..], fmt, d)) else [])
    ensures i + 1 == |items| ==> PrintItems(items[i + 1..], fmt, d) == []
  {
    hide Print;
    var s := items[i..];
    assert s[1..] == items[i + 1..] && s[0] == items[i];
    assert Print(items[i], fmt, d) + [] == Print(items[i], fmt, d);
  }

  lemma MembersAt(members: seq<Member>, fmt: bool, d: nat, i: nat)
    requires i < |members|
    ensures PrintMembers(members[i..], fmt, d)
         == MemberText(members[i], fmt, d, If(i + 1 < |members|, [COMMA]) + (If(fmt, [NEWLINE]) + PrintMembers(members[i + 1..], fmt, d)))
  {
    hide MemberText;
    assert members[i..][1..] == members[i + 1..];
  }

  lemma MemberTextEnds(m: Member, fmt: bool, d: nat, end: Bytes, more: Bytes)
    ensures MemberText(m, fmt, d, end) + more == MemberText(m, fmt, d, end + more)
  {
    hide MemberText;
    MemberTextTail(m, fmt, d, end, more);
  }

  lemma MemberRegroup(a: Bytes, m: Member, fmt: bool, d: nat, end: Bytes)
    ensures ((((a + If(fmt, Tabs(d))) + Quoted(m.name)) + ([COLON] + If(fmt, [TAB]))) + Print(m.value, fmt, d)) + end
         == a + MemberText(m, fmt, d, end)
  {
    hide Print, Tabs, Quoted;
    var b, c, e, f := If(fmt, Tabs(d)), Quoted(m.name), [COLON] + If(fmt, [TAB]), Print(m.value, fmt, d);
    Assoc(((a + b) + c) + e, f, end);
    Assoc((a + b) + c, e, f + end);
    Assoc([COLON], If(fmt, [TAB]), f + end);
    Assoc(a + b, c, e + (f + end));
    Assoc(a, b, c + (e + (f + end)));
  }

  lemma NothingEscaped()
    ensures Escaped([]) == []
  {
  }

  lemma {:induction false} NothingToEscape(s: Bytes)
    requires |Escaped(s)| == |s|
    ensures Escaped(s) == s
  {
    hide EscapeByte;
    if s != [] {
      ShortEscape(s[0]);
      LongerEscaped(s[1..]);
      NothingToEscape(s[1..]);
    }
  }

  lemma ShortEscape(c: Byte)
    ensures |EscapeByte(c)| >= 1 && (|EscapeByte(c)| == 1 ==> EscapeByte(c) == [c])
  {
  }

  lemma {:induction false} LongerEscaped(s: Bytes)
    ensures |Escaped(s)| >= |s|
  {
    hide EscapeByte;
    if s != [] {
      ShortEscape(s[0]);
      LongerEscaped(s[1..]);
    }
  }

  /** The text of a tree, as a C string. */
  method PrintTree(v: Value, format: bool) returns (printed: Text)
    ensures printed == Print(v, format, 0)
    ensures forall requireEnd :: Parse(printed, requireEnd) == if Depth(v) <= 1000 then Some(v) else None
  {
    hide Print, Parse, Depth;
    RoundTrip(v, format, true);
    RoundTrip(v, format, false);
    var buffer := new PrintBuffer(format);
    buffer.PrintValue(v);
    buffer.UpdateOffset();
    assert buffer.text == [] + Print(v, format, 0) == Print(v, format, 0);
    printed := buffer.text;
  }

  // ---------------------------------------------------------------- parsing

  /** Text up to a terminator, with no other zero byte. */
  predicate Terminated(s: Bytes) { s != [] && s[|s| - 1] == 0 && 0 !in s[..|s| - 1] }

  /** What is left after a value ends where the whole ends, and is never empty. */
  predicate Suffix(r: Bytes, s: Bytes) { 0 < |r| <= |s| && r == s[|s| - |r|..] }

  lemma SuffixTrans(a: Bytes, b: Bytes, c: Bytes)
    requires Suffix(a, b) && Suffix(b, c)
    ensures Suffix(a, c)
  {
  }

  lemma SuffixEnds(r: Bytes, s: Bytes)
    requires Suffix(r, s) && Terminated(s)
    ensures Terminated(r)
  {
    assert forall i :: 0 <= i < |r| - 1 ==> r[i] == s[..|s| - 1][i + |s| - |r|];
  }

  lemma DropIsSuffix(s: Bytes, n: nat)
    requires n < |s|
    ensures Suffix(s[n..], s)
  {
  }

  lemma {:induction false} SkipIsSuffix(s: Bytes)
    requires s != []
    ensures Suffix(Skip(s), s)
  {
    if |s| > 1 && s[0] <= 32 {
      SkipIsSuffix(s[1..]);
      DropIsSuffix(s, 1);
      SuffixTrans(Skip(s[1..]), s[1..], s);
    }
  }

  /** A byte other than zero is not the last. */
  lemma NotLast(s: Bytes, n: nat)
    requires Terminated(s) && n < |s| && s[n] != 0
    ensures n + 1 < |s| && Suffix(s[n + 1..], s) && Terminated(s[n + 1..])
  {
    DropIsSuffix(s, n + 1);
    SuffixEnds(s[n + 1..], s);
  }

  lemma StringLeaves(s: Bytes)
    requires Terminated(s)
    ensures ParseString(s).Some? ==> Suffix(ParseString(s).value.1, s)
  {
    hide Unescape;
    if ParseString(s).Some? {
      var n := Close(s[1..]).value;
      assert s[n + 1] == s[1..][n] == QUOTE;
      NotLast(s, n + 1);
    }
  }

  lemma KeywordLeaves(s: Bytes, k: Bytes)
    requires Terminated(s) && StartsWith(s, k) && k != [] && k[|k| - 1] != 0
    ensures Suffix(s[|k|..], s)
  {
    assert s[|k| - 1] == s[..|k|][|k| - 1];
    NotLast(s, |k| - 1);
  }

  lemma {:induction false} ValueLeaves(s: Bytes, depth: nat)
    requires Terminated(s)
    ensures var r := ParseValue(s, depth); r.Some? ==> Suffix(r.value.1, s) && depth + Depth(r.value.0) <= Max(NESTING_LIMIT, depth)
    decreases |s|, 0
  {
    hide ParseItems, ParseMembers, ItemsDepth, MembersDepth, ParseString, Terminated, Suffix, StartsWith, Skip;
    if ParseValue(s, depth).Some? {
      if StartsWith(s, NULL_TEXT) {
        KeywordLeaves(s, NULL_TEXT);
      } else if StartsWith(s, FALSE_TEXT) {
        KeywordLeaves(s, FALSE_TEXT);
      } else if StartsWith(s, TRUE_TEXT) {
        KeywordLeaves(s, TRUE_TEXT);
      } else if s[0] == QUOTE {
        StringLeaves(s);
      } else {
        var t := AfterBracket(s);
        if t[0] == CLOSE_ARRAY || t[0] == CLOSE_OBJECT { NotLast(t, 0); SuffixTrans(t[1..], t, s); EmptyDepth(); }
        if s[0] == OPEN_ARRAY && t[0] != CLOSE_ARRAY {
          ItemsLeave(t, depth + 1);
          SuffixTrans(ParseItems(t, depth + 1).value.1, t, s);
        }
        if s[0] == OPEN_OBJECT && t[0] != CLOSE_OBJECT {
          MembersLeave(t, depth + 1);
          SuffixTrans(ParseMembers(t, depth + 1).value.1, t, s);
        }
      }
    }
  }

  lemma EmptyDepth()
    ensures Depth(Arr([])) == 1 && Depth(Obj([])) == 1
  {
  }

  lemma AfterBracket(s: Bytes) returns (t: Bytes)
    requires Terminated(s) && s[0] != 0
    ensures t == Skip(s[1..]) && Terminated(t) && Suffix(t, s) && t != [] && |t| < |s|
  {
    NotLast(s, 0);
    t := Skip(s[1..]);
    SkipIsSuffix(s[1..]);
    SuffixTrans(t, s[1..], s);
    SuffixEnds(t, s);
  }

  lemma SkipEnds(s: Bytes)
    requires Terminated(s)
    ensures Terminated(Skip(s)) && Suffix(Skip(s), s)
  {
    SkipIsSuffix(s);
    SuffixEnds(Skip(s), s);
  }

  lemma {:induction false} ItemsLeave(s: Bytes, depth: nat)
    requires Terminated(s)
    ensures var r := ParseItems(s, depth); r.Some? ==> Suffix(r.value.1, s) && depth + ItemsDepth(r.value.0) <= Max(NESTING_LIMIT, depth)
    decreases |s|, 1
  {
    hide ParseValue, Depth, Terminated, Suffix, Skip;
    if ParseItems(s, depth).Some? {
      SkipEnds(s);
      ValueLeaves(Skip(s), depth);
      var (v, rest) := ParseValue(Skip(s), depth).value;
      SuffixTrans(rest, Skip(s), s);
      SuffixEnds(rest, s);
      SkipEnds(rest);
      var t := Skip(rest);
      SuffixTrans(t, rest, s);
      NotLast(t, 0);
      SuffixTrans(t[1..], t, s);
      if t[0] == COMMA {
        ItemsLeave(t[1..], depth);
        var (more, rest') := ParseItems(t[1..], depth).value;
        SuffixTrans(rest', t[1..], s);
        assert ([v] + more)[1..] == more;
      } else {
        assert [v][1..] == [] && ItemsDepth([]) == 0;
      }
    }
  }

  lemma {:induction false} MembersLeave(s: Bytes, depth: nat)
    requires Terminated(s)
    ensures var r := ParseMembers(s, depth); r.Some? ==> Suffix(r.value.1, s) && depth + MembersDepth(r.value.0) <= Max(NESTING_LIMIT, depth)
    decreases |s|, 1
  {
    hide ParseValue, ParseString, Depth, Terminated, Suffix, Skip;
    if ParseMembers(s, depth).Some? {
      var colon := NameLeaves(s, depth);
      var x := Skip(colon[1..]);
      ValueLeaves(x, depth);
      var (v, rest) := ParseValue(x, depth).value;
      SuffixTrans(rest, x, s);
      SuffixEnds(rest, s);
      SkipEnds(rest);
      var t := Skip(rest);
      SuffixTrans(t, rest, s);
      NotLast(t, 0);
      SuffixTrans(t[1..], t, s);
      var m := Member(ParseString(Skip(s)).value.0, v);
      if t[0] == COMMA {
        MembersLeave(t[1..], depth);
        var (more, rest') := ParseMembers(t[1..], depth).value;
        SuffixTrans(rest', t[1..], s);
        assert ([m] + more)[1..] == more;
      } else {
        assert [m][1..] == [] && MembersDepth([]) == 0;
      }
    }
  }

  /** A member's name and the colon behind it. */
  lemma NameLeaves(s: Bytes, depth: nat) returns (colon: Bytes)
    requires Terminated(s) && ParseMembers(s, depth).Some?
    ensures ParseString(Skip(s)).Some? && colon == Skip(ParseString(Skip(s)).value.1) && colon != []
    ensures var x := Skip(colon[1..]); Terminated(x) && Suffix(x, s) && |x| < |s|
  {
    hide ParseValue, ParseString, Terminated, Suffix, Skip;
    SkipEnds(s);
    StringLeaves(Skip(s));
    var r1 := ParseString(Skip(s)).value.1;
    SuffixTrans(r1, Skip(s), s);
    SuffixEnds(r1, s);
    SkipEnds(r1);
    colon := Skip(r1);
    SuffixTrans(colon, r1, s);
    NotLast(colon, 0);
    SuffixTrans(colon[1..], colon, s);
    SkipEnds(colon[1..]);
    SuffixTrans(Skip(colon[1..]), colon[1..], s);
  }

  /** Whatever a text parses to can be printed and parsed again. */
  lemma ParsedSurvives(text: Text, requireEnd: bool, fmt: bool)
    requires Parse(text, requireEnd).Some?
    ensures var v := Parse(text, requireEnd).value;
            Depth(v) <= 1000 && 0 !in Print(v, fmt, 0) && Parse(Print(v, fmt, 0), requireEnd) == Some(v)
  {
    hide ParseValue, Depth, Print, Skip;
    var s := text + [0];
    assert Terminated(s) by { assert s[..|s| - 1] == text; }
    SkipEnds(s);
    ValueLeaves(Skip(s), 0);
    RoundTrip(Parse(text, requireEnd).value, fmt, requireEnd);
  }

  // ---------------------------------------------------------------- the parser

  predicate AllHex(s: Bytes, i: nat)
    requires i <= |s|
  {
    forall k :: 0 <= k < i ==> HexValue(s[k]).Some?
  }

  /** The first `i` digits, the next place made free. */
  function HexSum(s: Bytes, i: nat): nat
    requires i <= 3 && i <= |s| && AllHex(s, i)
  {
    if i == 0 then 0 else (HexSum(s, i - 1) + HexValue(s[i - 1]).value) * 16
  }

  method ParseHex4(input: Bytes) returns (h: nat)
    requires |input| >= 4
    ensures h == Hex4(input)
  {
    hide HexValue;
    h := 0;
    for i := 0 to 4
      invariant AllHex(input, i)
      invariant i <= 3 ==> h == HexSum(input, i)
      invariant i == 4 ==> h == HexSum(input, 3) + HexValue(input[3]).value
    {
      var d := HexValue(input[i]);
      if d.None? { return 0; }
      h := h + d.value;
      if i < 3 { h := h * 16; }
    }
    assert HexSum(input, 1) == HexValue(input[0]).value * 16;
    assert HexSum(input, 2) == (HexSum(input, 1) + HexValue(input[1]).value) * 16;
    assert HexSum(input, 3) == (HexSum(input, 2) + HexValue(input[2]).value) * 16;
  }

  /** A codepoint without its lowest `k` groups of six bits. */
  function Upper(c: nat, k: nat): nat
    requires k <= 3
  {
    if k == 0 then c else if k == 1 then c / 0x40 else if k == 2 then c / 0x1000 else c / 0x4_0000
  }

  lemma UpperNext(c: nat, k: nat)
    requires k < 3
    ensures Upper(c, k) / 0x40 == Upper(c, k + 1)
  {
  }

  method EncodeUtf8(c: nat) returns (s: Bytes)
    requires c <= 0x10FFFF
    ensures s == Utf8(c)
  {
    hide Upper;
    var length, mark := 1, 0;
    if c < 0x80 { } else if c < 0x800 { length, mark := 2, 0xC0; } else if c < 0x1_0000 { length, mark := 3, 0xE0; } else { length, mark := 4, 0xF0; }
    UpperAll(c);
    var out := new Byte[length](i => 0);
    var codepoint, pos := c, length - 1;
    while pos > 0
      invariant 0 <= pos < length && codepoint == Upper(c, length - 1 - pos)
      invariant forall j :: pos < j < length ==> out[j] == 0x80 + Upper(c, length - 1 - j) % 0x40
    {
      out[pos] := 0x80 + codepoint % 0x40;
      UpperNext(c, length - 1 - pos);
      codepoint := codepoint / 0x40;
      pos := pos - 1;
    }
    out[0] := if length > 1 then mark + codepoint else codepoint;
    s := out[..];
  }

  lemma UpperAll(c: nat)
    ensures Upper(c, 0) == c && Upper(c, 1) == c / 0x40 && Upper(c, 2) == c / 0x1000 && Upper(c, 3) == c / 0x4_0000
  {
  }

  /** The length of a literal and its bytes; a length of zero is a failure. */
  method Utf16ToUtf8(s: Bytes) returns (length: nat, bytes: Bytes)
    ensures match Utf16Literal(s)
            case None => length == 0
            case Some((n, c)) => length == n && bytes == Utf8(c)
  {
    hide Hex4, Utf8;
    bytes := [];
    if |s| < 6 { return 0, []; }
    var codepoint;
    var first := ParseHex4(s[2..]);
    if 0xDC00 <= first <= 0xDFFF { return 0, []; }
    if 0xD800 <= first <= 0xDBFF {
      length := 12;
      if |s| - 6 < 6 { return 0, []; }
      if s[6] != BACKSLASH || s[7] != LOWER_U { return 0, []; }
      var second := ParseHex4(s[8..]);
      if second < 0xDC00 || second > 0xDFFF { return 0, []; }
      codepoint := 0x1_0000 + (first % 0x400) * 0x400 + second % 0x400;
    } else {
      length, codepoint := 6, first;
    }
    bytes := EncodeUtf8(codepoint);
  }

  class ParseBuffer {
    /** The text with its terminator. */
    const content: Bytes
    var offset: nat
    var depth: nat

    constructor (text: Text)
      ensures Valid() && Rest() == text + [0] && depth == 0
    {
      content, offset, depth := text + [0], 0, 0;
      new;
      assert content[..|content| - 1] == text;
      assert content[0..] == content;
    }

    predicate Valid()
      reads this
    {
      offset < |content| && Terminated(content[offset..])
    }

    function Rest(): Bytes
      requires Valid()
      reads this
    {
      content[offset..]
    }

    method SkipWhitespace()
      requires Valid()
      modifies this`offset
      ensures Valid() && Rest() == Skip(old(Rest()))
    {
      hide Terminated;
      SkipEnds(Rest());
      while offset < |content| && content[offset] <= 32
        invariant offset <= |content|
        invariant offset < |content| ==> Skip(content[offset..]) == Skip(old(Rest()))
        invariant offset == |content| ==> Skip(old(Rest())) == content[offset - 1..]
      {
        assert content[offset..][1..] == content[offset + 1..];
        offset := offset + 1;
      }
      if offset == |content| { offset := offset - 1; }
    }

    /** Find the closing quote of the string that opens at the offset. */
    method FindClose() returns (end: Option<nat>)
      requires Valid() && Rest()[0] == QUOTE
      ensures end == Further(Close(Rest()[1..]), offset + 1)
    {
      hide Close, Terminated;
      var e := offset + 1;
      assert Rest()[1..] == content[e..];
      while e < |content| && content[e] != QUOTE
        invariant offset < e <= |content|
        invariant Further(Close(content[e..]), e) == Further(Close(content[offset + 1..]), offset + 1)
      {
        CloseStep(content[e..]);
        assert content[e..][1..] == content[e + 1..];
        if content[e] == BACKSLASH {
          if e + 1 >= |content| { return None; }
          assert content[e..][2..] == content[e + 2..];
          e := e + 1;
        }
        e := e + 1;
      }
      CloseStep(content[e..]);
      if e >= |content| { return None; }
      return Some(e);
    }

    /** Resolve the escapes between two places; a quote stands at the second. */
    method UnescapeRange(from: nat, end: nat) returns (output: Option<Bytes>)
      requires from <= end < |content| && content[end] == QUOTE
      ensures output == Unescape(content[from..end])
    {
      hide Utf16Literal, Utf8, Unletter;
      var p, out := from, [];
      PrependNone(Unescape(content[from..end]));
      while p < end
        invariant from <= p
        invariant Prepend(out, Unescape(if p <= end then content[p..end] else [])) == Unescape(content[from..end])
        decreases end - p
      {
        var s := content[p..end];
        UnescapeStep(s);
        var was := out;
        if content[p] != BACKSLASH {
          PrependMore(out, [content[p]], Unescape(s[1..]));
          out := out + [content[p]];
          assert s[1..] == content[p + 1..end];
          p := p + 1;
        } else {
          var c := content[p + 1];
          if Unletter(c).Some? {
            PrependMore(out, [Unletter(c).value], Unescape(if |s| == 1 then [] else s[2..]));
            out := out + [Unletter(c).value];
            assert |s| > 1 ==> s[2..] == content[p + 2..end];
            p := p + 2;
          } else if c == LOWER_U {
            var length, bytes := Utf16ToUtf8(s);
            if length == 0 { return None; }
            PrependMore(out, bytes, Unescape(s[length..]));
            out := out + bytes;
            assert s[length..] == content[p + length..end];
            p := p + length;
          } else {
            return None;
          }
        }
      }
      assert p == end ==> content[p..end] == [];
      assert out + [] == out;
      return Some(out);
    }

    method ReadString() returns (r: Option<Bytes>)
      requires Valid()
      modifies this`offset
      ensures match ParseString(old(Rest()))
              case None => r == None
              case Some((t, rest)) => r == Some(t) && Valid() && Rest() == rest
    {
      hide Close, Unescape, Terminated;
      ghost var s := Rest();
      StringLeaves(s);
      if content[offset] != QUOTE { return None; }
      var end := FindClose();
      if end.None? { return None; }
      assert s[1..][..end.value - offset - 1] == content[offset + 1..end.value];
      var output := UnescapeRange(offset + 1, end.value);
      if output.None? { return None; }
      offset := end.value + 1;
      assert content[offset..] == s[end.value - old(offset) + 1..];
      SuffixEnds(content[offset..], s);
      return Some(CString(output.value));
    }

    /** The text that is left starts with a keyword. */
    predicate At(keyword: Bytes)
      reads this
    {
      offset + |keyword| <= |content| && content[offset..offset + |keyword|] == keyword
    }

    lemma AtIsStart(keyword: Bytes)
      requires Valid()
      ensures At(keyword) <==> StartsWith(Rest(), keyword)
      ensures At(keyword) ==> offset + |keyword| <= |content| && content[offset + |keyword|..] == Rest()[|keyword|..]
    {
      if |keyword| <= |Rest()| { assert content[offset..offset + |keyword|] == Rest()[..|keyword|]; }
    }

    /** The keywords, moving past the one found. */
    method ReadKeyword() returns (r: Option<Value>)
      requires Valid()
      modifies this`offset
      ensures match KeywordAt(old(Rest()))
              case None => r == None && offset == old(offset)
              case Some((v, rest)) => r == Some(v) && Valid() && Rest() == rest
    {
      hide Terminated, StartsWith, At;
      ghost var s := Rest();
      KeywordStays(s);
      AtIsStart(NULL_TEXT);
      AtIsStart(FALSE_TEXT);
      AtIsStart(TRUE_TEXT);
      if At(NULL_TEXT) {
        offset := offset + 4;
        return Some(Null);
      }
      if At(FALSE_TEXT) {
        offset := offset + 5;
        return Some(False);
      }
      if At(TRUE_TEXT) {
        offset := offset + 4;
        return Some(True);
      }
      return None;
    }

    method ReadValue() returns (r: Option<Value>)
      requires Valid()
      modifies this
      ensures match ParseValue(old(Rest()), old(depth))
              case None => r == None
              case Some((v, rest)) => r == Some(v) && Valid() && Rest() == rest && depth == old(depth)
      decreases |content| - offset, 3
    {
      hide ParseValue, ParseItems, ParseMembers, ParseString, Terminated, KeywordAt;
      ghost var s := Rest();
      ValueUnfold(s, depth);
      r := ReadKeyword();
      if r.Some? { return; }
      assert s[0] == content[offset];
      if content[offset] == QUOTE {
        var t := ReadString();
        if t.None? { return None; }
        return Some(Str(t.value));
      }
      if content[offset] == OPEN_ARRAY {
        r := ReadArray();
        return;
      }
      if content[offset] == OPEN_OBJECT {
        r := ReadObject();
        return;
      }
      return None;
    }

    /** Behind an opening bracket and the whitespace after it. */
    method EnterBracket()
      requires Valid() && content[offset] != 0
      modifies this
      ensures Valid() && Rest() == Skip(old(Rest())[1..]) && depth == old(depth) + 1 && offset > old(offset)
      ensures content[offset + 1..] == Rest()[1..] && content[offset] == Rest()[0] && (content[offset] != 0 ==> |Rest()| > 1 && Terminated(Rest()[1..]))
    {
      hide Terminated, Skip;
      ghost var s := Rest();
      depth := depth + 1;
      NotLast(s, 0);
      assert content[offset + 1..] == s[1..];
      offset := offset + 1;
      SkipWhitespace();
      NotLastAt(Rest());
    }

    method ReadArray() returns (r: Option<Value>)
      requires Valid() && content[offset] == OPEN_ARRAY
      modifies this
      ensures match ParseValue(old(Rest()), old(depth))
              case None => r == None
              case Some((v, rest)) => r == Some(v) && Valid() && Rest() == rest && depth == old(depth)
      decreases |content| - offset, 1
    {
      hide ParseValue, ParseItems, Terminated, Skip;
      ghost var s := Rest();
      ArrayUnfold(s, depth);
      if depth >= NESTING_LIMIT { return None; }
      EnterBracket();
      ghost var t := Rest();
      if content[offset] == CLOSE_ARRAY {
        depth := depth - 1;
        offset := offset + 1;
        return Some(Arr([]));
      }
      offset := offset - 1;
      assert content[offset + 1..] == t;
      var items := ReadItems();
      if items.None? { return None; }
      depth := depth - 1;
      return Some(Arr(items.value));
    }

    /** The elements behind the offset, and the closing bracket. */
    method ReadItems() returns (r: Option<seq<Value>>)
      requires offset + 1 < |content| && Terminated(content[offset + 1..])
      modifies this
      ensures match ParseItems(old(content[offset + 1..]), old(depth))
              case None => r == None
              case Some((items, rest)) => r == Some(items) && Valid() && Rest() == rest && depth == old(depth)
      decreases |content| - offset, 0
    {
      hide ParseValue, ParseItems, Terminated, Skip;
      var items: seq<Value> := [];
      JoinNone(ParseItems(content[offset + 1..], depth));
      while true
        invariant offset >= old(offset) && offset + 1 < |content| && Terminated(content[offset + 1..]) && depth == old(depth)
        invariant Join(items, ParseItems(content[offset + 1..], depth)) == ParseItems(old(content[offset + 1..]), depth)
        decreases |content| - offset
      {
        ItemsUnfoldAt(content[offset + 1..], depth);
        offset := offset + 1;
        SkipWhitespace();
        var v := ReadValue();
        if v.None? { return None; }
        SkipWhitespace();
        ghost var after := Rest();
        JoinMore(items, v.value, after, depth);
        items := items + [v.value];
        NotLastAt(after);
        assert content[offset + 1..] == after[1..];
        if content[offset] != COMMA {
          if content[offset] != CLOSE_ARRAY { return None; }
          offset := offset + 1;
          return Some(items);
        }
      }
    }

    method ReadObject() returns (r: Option<Value>)
      requires Valid() && content[offset] == OPEN_OBJECT
      modifies this
      ensures match ParseValue(old(Rest()), old(depth))
              case None => r == None
              case Some((v, rest)) => r == Some(v) && Valid() && Rest() == rest && depth == old(depth)
      decreases |content| - offset, 2
    {
      hide ParseValue, ParseMembers, Terminated, Skip;
      ghost var s := Rest();
      ObjectUnfold(s, depth);
      if depth >= NESTING_LIMIT { return None; }
      EnterBracket();
      ghost var t := Rest();
      if content[offset] == CLOSE_OBJECT {
        depth := depth - 1;
        offset := offset + 1;
        return Some(Obj([]));
      }
      offset := offset - 1;
      assert content[offset + 1..] == t;
      var members := ReadMembers();
      if members.None? { return None; }
      depth := depth - 1;
      return Some(Obj(members.value));
    }

    /** The member behind the offset, and the whitespace after it. */
    method ReadMember() returns (m: Option<Member>)
      requires offset + 1 < |content| && Terminated(content[offset + 1..])
      modifies this
      ensures m.None? ==> ParseMembers(old(content[offset + 1..]), old(depth)) == None
      ensures m.Some? ==> Valid() && offset > old(offset) && depth == old(depth)
      ensures m.Some? ==> ParseMembers(old(content[offset + 1..]), depth) == MembersAfter(m.value, Rest(), depth)
      decreases |content| - offset, 0
    {
      hide ParseValue, ParseMembers, ParseString, MembersAfter, Terminated, Skip;
      MembersUnfoldAt(content[offset + 1..], depth);
      offset := offset + 1;
      SkipWhitespace();
      StringIsText(Rest());
      var name := ReadString();
      if name.None? { return None; }
      SkipWhitespace();
      ghost var r2 := Rest();
      NotLastAt(r2);
      assert content[offset + 1..] == r2[1..];
      if content[offset] != COLON { return None; }
      offset := offset + 1;
      SkipWhitespace();
      var v := ReadValue();
      if v.None? { return None; }
      SkipWhitespace();
      return Some(Member(name.value, v.value));
    }

    /** The members behind the offset, and the closing brace. */
    method ReadMembers() returns (r: Option<seq<Member>>)
      requires offset + 1 < |content| && Terminated(content[offset + 1..])
      modifies this
      ensures match ParseMembers(old(content[offset + 1..]), old(depth))
              case None => r == None
              case Some((members, rest)) => r == Some(members) && Valid() && Rest() == rest && depth == old(depth)
      decreases |content| - offset, 1
    {
      hide ParseValue, ParseMembers, ParseString, Terminated, Skip;
      var members: seq<Member> := [];
      JoinNone(ParseMembers(content[offset + 1..], depth));
      while true
        invariant offset >= old(offset) && offset + 1 < |content| && Terminated(content[offset + 1..]) && depth == old(depth)
        invariant Join(members, ParseMembers(content[offset + 1..], depth)) == ParseMembers(old(content[offset + 1..]), depth)
        decreases |content| - offset
      {
        var m := ReadMember();
        if m.None? { return None; }
        ghost var after := Rest();
        JoinMembers(members, m.value, after, depth);
        members := members + [m.value];
        NotLastAt(after);
        assert content[offset + 1..] == after[1..];
        if content[offset] != COMMA {
          if content[offset] != CLOSE_OBJECT { return None; }
          offset := offset + 1;
          return Some(members);
        }
      }
    }
  }

  /** The tree that a text spells. */
  method ParseText(text: Text, requireEnd: bool) returns (r: Option<Value>)
    ensures r == Parse(text, requireEnd)
    ensures r.Some? ==> Depth(r.value) <= 1000 && forall fmt :: Reparses(r.value, fmt, requireEnd)
  {
    hide ParseValue, Depth, Skip, Reparses;
    if Parse(text, requireEnd).Some? {
      forall fmt ensures Reparses(Parse(text, requireEnd).value, fmt, requireEnd) && Depth(Parse(text, requireEnd).value) <= NESTING_LIMIT {
        ParsedSurvives(text, requireEnd, fmt);
        ReparsesIs(Parse(text, requireEnd).value, fmt, requireEnd);
      }
      assert Reparses(Parse(text, requireEnd).value, true, requireEnd);
    }
    var buffer := new ParseBuffer(text);
    buffer.SkipWhitespace();
    r := buffer.ReadValue();
    if r.None? { return None; }
    if requireEnd {
      buffer.SkipWhitespace();
      if buffer.content[buffer.offset] != 0 { return None; }
    }
  }

  /** What is printed for a tree parses to that tree. */
  ghost predicate Reparses(v: Value, fmt: bool, requireEnd: bool) {
    0 !in Print(v, fmt, 0) && Parse(Print(v, fmt, 0), requireEnd) == Some(v)
  }

  lemma ReparsesIs(v: Value, fmt: bool, requireEnd: bool)
    requires 0 !in Print(v, fmt, 0) && Parse(Print(v, fmt, 0), requireEnd) == Some(v)
    ensures Reparses(v, fmt, requireEnd)
  {
  }

  /** The keywords at the start of a text. */
  function KeywordAt(s: Bytes): Parsed<Value> {
    if StartsWith(s, NULL_TEXT) then Some((Null, s[4..]))
    else if StartsWith(s, FALSE_TEXT) then Some((False, s[5..]))
    else if StartsWith(s, TRUE_TEXT) then Some((True, s[4..]))
    else None
  }

  lemma KeywordStays(s: Bytes)
    requires Terminated(s)
    ensures KeywordAt(s).Some? ==> KeywordAt(s).value.1 != [] && Terminated(KeywordAt(s).value.1)
  {
    hide Terminated;
    if StartsWith(s, NULL_TEXT) { KeywordLeaves(s, NULL_TEXT); SuffixEnds(s[4..], s); }
    else if StartsWith(s, FALSE_TEXT) { KeywordLeaves(s, FALSE_TEXT); SuffixEnds(s[5..], s); }
    else if StartsWith(s, TRUE_TEXT) { KeywordLeaves(s, TRUE_TEXT); SuffixEnds(s[4..], s); }
  }

  lemma ValueUnfold(s: Bytes, depth: nat)
    requires Terminated(s)
    ensures s != []
    ensures KeywordAt(s).Some? ==> ParseValue(s, depth) == KeywordAt(s)
    ensures KeywordAt(s).None? && s[0] == QUOTE ==>
      ParseValue(s, depth) == if ParseString(s).None? then None else Some((Str(ParseString(s).value.0), ParseString(s).value.1))
    ensures KeywordAt(s).None? && s[0] != QUOTE && s[0] != OPEN_ARRAY && s[0] != OPEN_OBJECT ==> ParseValue(s, depth) == None
    ensures ParseString(s).Some? ==> 0 !in ParseString(s).value.0
  {
    hide ParseItems, ParseMembers, StartsWith, Skip;
  }

  /** A byte other than the terminator is followed by more. */
  lemma NotLastAt(s: Bytes)
    requires Terminated(s)
    ensures s[0] != 0 ==> |s| > 1 && Terminated(s[1..])
  {
    hide Terminated;
    TerminatedSome(s);
    if s[0] != 0 { NotLast(s, 0); }
  }

  lemma TerminatedSome(s: Bytes)
    requires Terminated(s)
    ensures s != []
  {
  }

  lemma ObjectUnfold(s: Bytes, depth: nat)
    requires Terminated(s) && s[0] == OPEN_OBJECT
    ensures var t := Skip(s[1..]);
      && t != []
      && (depth >= NESTING_LIMIT ==> ParseValue(s, depth) == None)
      && (depth < NESTING_LIMIT && t[0] == CLOSE_OBJECT ==> ParseValue(s, depth) == Some((Obj([]), t[1..])))
      && (depth < NESTING_LIMIT && t[0] != CLOSE_OBJECT ==>
            ParseValue(s, depth) == if ParseMembers(t, depth + 1).None? then None else Some((Obj(ParseMembers(t, depth + 1).value.0), ParseMembers(t, depth + 1).value.1)))
  {
    hide ParseMembers, StartsWith, Terminated, Skip;
    NotKeyword(s, 0);
    var t := AfterBracket(s);
  }

  lemma JoinMembers(members: seq<Member>, m: Member, t: Bytes, depth: nat)
    requires t != []
    ensures Join(members, MembersAfter(m, t, depth)) ==
      if t[0] == COMMA then Join(members + [m], ParseMembers(t[1..], depth))
      else if t[0] == CLOSE_OBJECT then Some((members + [m], t[1..])) else None
  {
    hide ParseMembers;
    if t[0] == COMMA && ParseMembers(t[1..], depth).Some? {
      var more := ParseMembers(t[1..], depth).value.0;
      assert members + ([m] + more) == (members + [m]) + more;
    }
  }

  lemma MembersUnfoldAt(s: Bytes, depth: nat)
    ensures var n := ParseString(Skip(s));
      && (n.None? ==> ParseMembers(s, depth) == None)
      && (n.Some? ==>
            var r2 := Skip(n.value.1);
            && (r2 == [] || r2[0] != COLON ==> ParseMembers(s, depth) == None)
            && (r2 != [] && r2[0] == COLON ==>
                  var r := ParseValue(Skip(r2[1..]), depth);
                  && (r.None? ==> ParseMembers(s, depth) == None)
                  && (r.Some? && Skip(r.value.1) != [] ==> ParseMembers(s, depth) == MembersAfter(Member(n.value.0, r.value.0), Skip(r.value.1), depth))))
  {
    hide ParseValue, ParseString, Skip;
    StringIsText(Skip(s));
  }

  lemma StringIsText(s: Bytes)
    ensures ParseString(s).Some? ==> 0 !in ParseString(s).value.0
  {
  }

  /** Elements already read put before those still to be read. */
  function Join<T>(done: seq<T>, r: Parsed<seq<T>>): Parsed<seq<T>> {
    match r
    case None => None
    case Some((v, rest)) => Some((done + v, rest))
  }

  lemma JoinNone<T>(r: Parsed<seq<T>>)
    ensures Join([], r) == r
  {
    if r.Some? { assert [] + r.value.0 == r.value.0; }
  }

  lemma JoinMore(items: seq<Value>, v: Value, t: Bytes, depth: nat)
    requires t != []
    ensures Join(items, ItemsAfter(v, t, depth)) ==
      if t[0] == COMMA then Join(items + [v], ParseItems(t[1..], depth))
      else if t[0] == CLOSE_ARRAY then Some((items + [v], t[1..])) else None
  {
    hide ParseItems;
    if t[0] == COMMA && ParseItems(t[1..], depth).Some? {
      var more := ParseItems(t[1..], depth).value.0;
      assert items + ([v] + more) == (items + [v]) + more;
    }
  }

  lemma ItemsUnfoldAt(s: Bytes, depth: nat)
    ensures var r := ParseValue(Skip(s), depth);
      ParseItems(s, depth) == if r.None? || Skip(r.value.1) == [] then None else ItemsAfter(r.value.0, Skip(r.value.1), depth)
  {
    hide ParseValue, Skip;
  }

  lemma ArrayUnfold(s: Bytes, depth: nat)
    requires Terminated(s) && s[0] == OPEN_ARRAY
    ensures var t := Skip(s[1..]);
      && t != []
      && (depth >= NESTING_LIMIT ==> ParseValue(s, depth) == None)
      && (depth < NESTING_LIMIT && t[0] == CLOSE_ARRAY ==> ParseValue(s, depth) == Some((Arr([]), t[1..])))
      && (depth < NESTING_LIMIT && t[0] != CLOSE_ARRAY ==>
            ParseValue(s, depth) == if ParseItems(t, depth + 1).None? then None else Some((Arr(ParseItems(t, depth + 1).value.0), ParseItems(t, depth + 1).value.1)))
  {
    hide ParseItems, StartsWith, Terminated, Skip;
    NotKeyword(s, 0);
    var t := AfterBracket(s);
  }

  lemma PrependNone(r: Option<Bytes>)
    ensures Prepend([], r) == r
  {
    if r.Some? { assert [] + r.value == r.value; }
  }

  lemma PrependMore(a: Bytes, b: Bytes, r: Option<Bytes>)
    ensures Prepend(a, Prepend(b, r)) == Prepend(a + b, r)
  {
    if r.Some? { Assoc(a, b, r.value); }
  }

  lemma UnescapeStep(s: Bytes)
    requires s != []
    ensures var c := if |s| == 1 then QUOTE else s[1];
      && (s[0] != BACKSLASH ==> Unescape(s) == Prepend([s[0]], Unescape(s[1..])))
      && (s[0] == BACKSLASH && Unletter(c).Some? ==> Unescape(s) == Prepend([Unletter(c).value], Unescape(if |s| == 1 then [] else s[2..])))
      && (s[0] == BACKSLASH && Unletter(c).None? && c == LOWER_U && Utf16Literal(s).Some? ==>
            Unescape(s) == Prepend(Utf8(Utf16Literal(s).value.1), Unescape(s[Utf16Literal(s).value.0..])))
      && (s[0] == BACKSLASH && Unletter(c).None? && (c != LOWER_U || Utf16Literal(s).None?) ==> Unescape(s) == None)
  {
    hide Utf16Literal, Utf8, Unletter;
  }
}
