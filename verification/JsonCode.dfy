/** The JSON parser and printer as they run: loops over the text and over the children. */
module JsonCode {
  import opened Bits
  import opened JsonText
  import opened JsonRoundTrip

  // ----- Parsing -----

  method SkipBlanks(text: string, start: nat) returns (p: nat)
    ensures p == Skip(text, start)
  {
    p := start;
    while At(text, p) != NUL && At(text, p) as int <= 32
      invariant Skip(text, start) == Skip(text, p)
      decreases Left(text, p)
    {
      p := p + 1;
    }
  }

  method DigitRun(text: string, start: nat, n0: nat) returns (n: nat, p: nat)
    ensures (n, p) == ReadDigits(text, start, n0)
  {
    n, p := n0, start;
    while IsDigit(At(text, p))
      invariant ReadDigits(text, start, n0) == ReadDigits(text, p, n)
      decreases Left(text, p)
    {
      n := n * 10 + DigitValue(At(text, p));
      p := p + 1;
    }
  }

  method ReadNumber(text: string, start: nat) returns (r: Parsed<Json>)
    requires At(text, start) == '-' || IsDigit(At(text, start))
    ensures r == ParseNumber(text, start)
  {
    hide ReadDigits, At, ParseExponent;
    var n: nat, p: nat, negative, scale: int := 0, start, false, 0;
    if At(text, p) == '-' {
      negative, p := true, p + 1;
    }
    if At(text, p) == '0' {
      p := p + 1;
    }
    if '1' <= At(text, p) <= '9' {
      n, p := DigitRun(text, p, 0);
    }
    if At(text, p) == '.' && IsDigit(At(text, p + 1)) {
      var point: int := p;
      n, p := DigitRun(text, p + 1, n);
      scale := point + 1 - p;
    }
    var exponent;
    exponent, p := ReadExponent(text, p);
    var m: int := n;
    r := Ok(Number(if negative then -m else m, scale + exponent), p);
  }

  method ReadExponent(text: string, start: nat) returns (exponent: int, p: nat)
    ensures (exponent, p) == ParseExponent(text, start)
  {
    hide ReadDigits, At;
    exponent, p := 0, start;
    if At(text, p) == 'e' || At(text, p) == 'E' {
      p := p + 1;
      var negative := false;
      if At(text, p) == '+' {
        p := p + 1;
      } else if At(text, p) == '-' {
        negative, p := true, p + 1;
      }
      exponent, p := DigitRun(text, p, 0);
      if negative {
        exponent := -exponent;
      }
    }
  }

  method ReadString(text: string, start: nat) returns (r: Parsed<string>)
    ensures r == ParseString(text, start)
  {
    hide ParseEscape, ParseChars, At;
    if At(text, start) != '\"' {
      return Fail;
    }
    var p: nat, out: string := start + 1, "";
    while At(text, p) != '\"' && At(text, p) != NUL
      invariant out + ParseChars(text, p).0 == ParseChars(text, start + 1).0
      invariant ParseChars(text, p).1 == ParseChars(text, start + 1).1
      decreases Left(text, p)
    {
      if At(text, p) != '\\' {
        PlainStep(text, p);
        out := out + [At(text, p)];
        p := p + 1;
      } else {
        var e, q := ReadEscape(text, p + 1);
        EscapeStep(text, p);
        out := out + e;
        p := q;
      }
    }
    CharsEnd(text, p);
    assert out + [] == out;
    if At(text, p) == '\"' {
      p := p + 1;
    }
    r := Ok(out, p);
  }

  method ReadEscape(text: string, start: nat) returns (e: string, p: nat)
    ensures (e, p) == ParseEscape(text, start)
  {
    hide Hex4, Utf8, At;
    p := start;
    var c := At(text, p);
    if c == 'b' {
      e := [8 as char];
    } else if c == 'f' {
      e := [12 as char];
    } else if c == 'n' {
      e := "\n";
    } else if c == 'r' {
      e := "\r";
    } else if c == 't' {
      e := "\t";
    } else if c == 'u' {
      e, p := ReadUnicode(text, p);
    } else {
      e := [c];
    }
    p := p + 1;
  }

  // parse_hex4
  method ReadHex4(text: string, start: nat) returns (h: nat)
    ensures h == Hex4(text, start)
  {
    hide At, HexValue;
    var d := HexValue(At(text, start));
    if d < 0 { return 0; }
    h := d * 0x10;
    d := HexValue(At(text, start + 1));
    if d < 0 { return 0; }
    h := (h + d) * 0x10;
    d := HexValue(At(text, start + 2));
    if d < 0 { return 0; }
    h := (h + d) * 0x10;
    d := HexValue(At(text, start + 3));
    if d < 0 { return 0; }
    h := h + d;
  }

  const FIRST_BYTE_MARK: seq<nat> := [0x00, 0x00, 0xC0, 0xE0, 0xF0, 0xF8, 0xFC]

  // The last six bits of a word under the mark of a continuation byte, bit by bit.
  lemma ContinuationByte(uc: nat)
    ensures And(Or(uc, 0x80), 0xBF) == 0x80 + uc % 0x40
  {
    hide And, Or;
    var u3 := ThreeBits(uc, 0x10, 0x17);
    var u6 := ThreeBits(u3, 0x02, 0x02);
    var u7 := AndOrStep(u6, 2, 2);
    var u8 := AndOrStep(u7, 1, 1);
    AndZero(Or(u8, 0));
    ModUnique(uc, 0x40, u6, uc - 0x40 * u6);
  }

  lemma ThreeBits(x: nat, a: nat, b: nat) returns (rest: nat)
    ensures 8 * rest <= x < 8 * rest + 8
    ensures And(Or(x, 8 * a), 8 * b + 7) == 8 * And(Or(rest, a), b) + (x - 8 * rest)
  {
    hide And, Or;
    var x1 := AndOrStep(x, 8 * a, 8 * b + 7);
    var x2 := AndOrStep(x1, 4 * a, 4 * b + 3);
    rest := AndOrStep(x2, 2 * a, 2 * b + 1);
  }

  lemma AndOrStep(x: nat, a: nat, b: nat) returns (half: nat)
    ensures 2 * half <= x <= 2 * half + 1
    ensures And(Or(x, a), b) ==
      2 * And(Or(half, a / 2), b / 2) + (if (x == 2 * half + 1 || a % 2 == 1) && b % 2 == 1 then 1 else 0)
  {
    hide And, Or;
    half := x / 2;
    OrStep(x, a);
    AndStep(Or(half, a / 2), if x % 2 == 1 || a % 2 == 1 then 1 else 0, b);
  }

  lemma AndStep(half: nat, bit: nat, y: nat)
    requires bit < 2
    ensures And(2 * half + bit, y) == 2 * And(half, y / 2) + (if bit == 1 && y % 2 == 1 then 1 else 0)
  {
    AndZero(half);
    AndZero(y / 2);
  }

  // The first byte: a mark above the bits that are left.
  lemma FirstByte(uc: nat, len: nat)
    requires 1 <= len <= 4 && (len == 2 ==> uc < 0x20) && (len > 2 ==> uc < 0x10)
    ensures Or(uc, FIRST_BYTE_MARK[len]) == uc + FIRST_BYTE_MARK[len]
  {
    hide Or;
    if len == 1 {
      OrZero(uc);
    } else if len == 2 {
      OrAbove(uc, 5, 6);
    } else if len == 3 {
      OrAbove(uc, 4, 14);
    } else {
      OrAbove(uc, 4, 15);
    }
  }

  lemma OrAbove(uc: nat, k: nat, high: nat)
    requires uc < Pow2(k)
    ensures Or(uc, high * Pow2(k)) == uc + high * Pow2(k)
  {
    hide Or, Pow2;
    OrDisjoint(high, k, uc);
    OrCommutes(uc, high * Pow2(k));
  }

  lemma OrCommutes(x: nat, y: nat)
    ensures Or(x, y) == Or(y, x)
  {
  }

  // Writes the UTF-8 of a number at ptr2, the last byte first; the switch falls through.
  method PutUtf8(out: array<char>, start: nat, code: nat) returns (end: nat)
    requires code < 0x11_0000 && start + |Utf8(code)| <= out.Length
    modifies out
    ensures end == start + |Utf8(code)| && out[start..end] == Utf8(code)
    ensures forall i | 0 <= i < out.Length && !(start <= i < end) :: out[i] == old(out[i])
  {
    hide And, Or, Utf8, Continuation;
    Utf8Bytes(code);
    var uc, len := code, 4;
    if uc < 0x80 {
      len := 1;
    } else if uc < 0x800 {
      len := 2;
    } else if uc < 0x1_0000 {
      len := 3;
    }
    var ptr2 := start + len;
    end := ptr2;
    if len >= 4 {
      ptr2, uc := PutContinuation(out, ptr2, uc, end);
    }
    if len >= 3 {
      ptr2, uc := PutContinuation(out, ptr2, uc, end);
    }
    if len >= 2 {
      ptr2, uc := PutContinuation(out, ptr2, uc, end);
    }
    FirstByte(uc, len);
    ptr2 := ptr2 - 1;
    ghost var tail := out[ptr2 + 1..end];
    out[ptr2] := Or(uc, FIRST_BYTE_MARK[len]) as char;
    assert out[ptr2..end] == [(uc + FIRST_BYTE_MARK[len]) as char] + tail;
  }

  method PutContinuation(out: array<char>, ptr2: nat, uc: nat, ghost end: nat) returns (ptr2': nat, uc': nat)
    requires 0 < ptr2 <= end <= out.Length
    modifies out
    ensures ptr2' == ptr2 - 1 && uc' == uc / 0x40
    ensures out[ptr2'..end] == [Continuation(uc)] + old(out[ptr2..end])
    ensures forall i | 0 <= i < out.Length && i != ptr2' :: out[i] == old(out[i])
  {
    ContinuationByte(uc);
    ptr2' := ptr2 - 1;
    out[ptr2'] := And(Or(uc, 0x80), 0xBF) as char;
    uc' := uc / 0x40;
  }

  function Continuation(uc: nat): char {
    (0x80 + uc % 0x40) as char
  }

  // The bytes of UTF-8, six bits at a time.
  lemma Utf8Bytes(code: nat)
    requires code < 0x11_0000
    ensures var c1, c2 := code / 0x40, code / 0x40 / 0x40;
      && (code < 0x80 ==> Utf8(code) == [code as char])
      && (0x80 <= code < 0x800 ==> Utf8(code) == [(c1 + 0xC0) as char] + [Continuation(code)])
      && (0x800 <= code < 0x1_0000 ==>
           Utf8(code) == [(c2 + 0xE0) as char] + ([Continuation(c1)] + [Continuation(code)]))
      && (0x1_0000 <= code ==>
           Utf8(code) ==
             [(c2 / 0x40 + 0xF0) as char] + ([Continuation(c2)] + ([Continuation(c1)] + [Continuation(code)])))
  {
  }

  // Ten bits of each half of a surrogate pair.
  lemma JoinsHalves(uc: nat, uc2: nat)
    ensures Or(And(uc, 0x3FF) * 0x400, And(uc2, 0x3FF)) == uc % 0x400 * 0x400 + uc2 % 0x400
  {
    hide And, Or;
    assert Pow2(10) == 0x400;
    AndAllOnes(uc, 10);
    AndAllOnes(uc2, 10);
    OrDisjoint(uc % 0x400, 10, uc2 % 0x400);
  }

  // The case 'u': p ends up on the last character of the escape.
  method ReadUnicode(text: string, start: nat) returns (e: string, p: nat)
    ensures (e, p + 1) == ParseUnicode(text, start)
  {
    hide Hex4, Utf8, At, And, Or;
    e := "";
    var uc := ReadHex4(text, start + 1);
    p := start + 4;
    if 0xDC00 <= uc <= 0xDFFF || uc == 0 {
      return;
    }
    if 0xD800 <= uc <= 0xDBFF {
      if At(text, p + 1) != '\\' || At(text, p + 2) != 'u' {
        return;
      }
      var uc2 := ReadHex4(text, p + 3);
      p := p + 6;
      if uc2 < 0xDC00 || uc2 > 0xDFFF {
        return;
      }
      JoinsHalves(uc, uc2);
      uc := 0x1_0000 + Or(And(uc, 0x3FF) * 0x400, And(uc2, 0x3FF));
    }
    var out := new char[4];
    Utf8Fits(uc);
    var end := PutUtf8(out, 0, uc);
    e := out[..end];
    assert e == out[0..end];
  }

  lemma Utf8Fits(uc: nat)
    requires uc < 0x11_0000
    ensures 1 <= |Utf8(uc)| <= 4
  {
  }

  method ReadValue(text: string, p: nat) returns (r: Parsed<Json>)
    ensures r == ParseValue(text, p)
    decreases Left(text, p), 1
  {
    hide ParseItems, ParseMembers, ParseNumber, ParseString;
    if StartsWith(text, p, "null") {
      return Ok(Null, p + 4);
    }
    if StartsWith(text, p, "false") {
      return Ok(False, p + 5);
    }
    if StartsWith(text, p, "true") {
      return Ok(True, p + 4);
    }
    if At(text, p) == '\"' {
      var s := ReadString(text, p);
      return if s.Fail? then Fail else Ok(String(s.value), s.next);
    }
    if At(text, p) == '-' || IsDigit(At(text, p)) {
      r := ReadNumber(text, p);
      return;
    }
    if At(text, p) == '[' {
      r := ReadArray(text, p);
      return;
    }
    if At(text, p) == '{' {
      r := ReadObject(text, p);
      return;
    }
    return Fail;
  }

  method ReadArray(text: string, start: nat) returns (r: Parsed<Json>)
    requires At(text, start) == '['
    ensures r == ParseValue(text, start)
    decreases Left(text, start), 0
  {
    hide ParseNumber, ParseString, Skip, ParseMembers, ParseItems, StartsWith;
    NoWord(text, start);
    var p := SkipBlanks(text, start + 1);
    if At(text, p) == ']' {
      return Ok(Array([]), p + 1);
    }
    var items := ReadItems(text, p);
    return if items.Fail? then Fail else Ok(Array(items.value), items.next);
  }

  // The loop of parse_array.
  method ReadItems(text: string, start: nat) returns (r: Parsed<seq<Json>>)
    ensures r == ParseItems(text, start)
    decreases Left(text, start), 2
  {
    hide ParseValue, Skip, ParseItems, AfterItem;
    var p := SkipBlanks(text, start);
    var v := ReadValue(text, p);
    FirstItem(text, start);
    if v.Fail? {
      return Fail;
    }
    var items := [v.value];
    p := SkipBlanks(text, v.next);
    while At(text, p) == ','
      invariant p > start && ParseItems(text, start) == AfterItem(text, items, p)
      decreases Left(text, p)
    {
      NextItem(text, items, p);
      p := SkipBlanks(text, p + 1);
      v := ReadValue(text, p);
      if v.Fail? {
        return Fail;
      }
      items := items + [v.value];
      p := SkipBlanks(text, v.next);
    }
    EndOfItems(text, items, p);
    if At(text, p) == ']' {
      return Ok(items, p + 1);
    }
    return Fail;
  }

  // What the rest of an array gives when some items have been read and p is after the last of them.
  ghost function AfterItem(text: string, items: seq<Json>, p: nat): Parsed<seq<Json>> {
    if At(text, p) == ',' then
      var rest := ParseItems(text, p + 1);
      if rest.Fail? then Fail else Ok(items + rest.value, rest.next)
    else if At(text, p) == ']' then Ok(items, p + 1)
    else Fail
  }

  lemma FirstItem(text: string, p: nat)
    ensures var v := ParseValue(text, Skip(text, p));
      ParseItems(text, p) == if v.Fail? then Fail else AfterItem(text, [v.value], Skip(text, v.next))
  {
    hide ParseValue, Skip, At;
  }

  lemma NextItem(text: string, items: seq<Json>, p: nat)
    requires At(text, p) == ','
    ensures var v := ParseValue(text, Skip(text, p + 1));
      AfterItem(text, items, p) == if v.Fail? then Fail else AfterItem(text, items + [v.value], Skip(text, v.next))
  {
    hide ParseValue, Skip, At, ParseItems;
    FirstItem(text, p + 1);
    var v := ParseValue(text, Skip(text, p + 1));
    if v.Ok? && At(text, Skip(text, v.next)) == ',' {
      var rest := ParseItems(text, Skip(text, v.next) + 1);
      if rest.Ok? { assert items + ([v.value] + rest.value) == (items + [v.value]) + rest.value; }
    }
  }

  lemma EndOfItems(text: string, items: seq<Json>, p: nat)
    requires At(text, p) != ','
    ensures AfterItem(text, items, p) == if At(text, p) == ']' then Ok(items, p + 1) else Fail
  {
  }

  method ReadMember(text: string, start: nat) returns (r: Parsed<Member>)
    ensures r == ParseMember(text, start)
    decreases Left(text, start), 1
  {
    hide ParseValue, ParseString, Skip;
    var p := SkipBlanks(text, start);
    var name := ReadString(text, p);
    if name.Fail? {
      return Fail;
    }
    p := SkipBlanks(text, name.next);
    if At(text, p) != ':' {
      return Fail;
    }
    p := SkipBlanks(text, p + 1);
    var v := ReadValue(text, p);
    if v.Fail? {
      return Fail;
    }
    return Ok(Member(name.value, v.value), v.next);
  }

  method ReadObject(text: string, start: nat) returns (r: Parsed<Json>)
    requires At(text, start) == '{'
    ensures r == ParseValue(text, start)
    decreases Left(text, start), 0
  {
    hide ParseNumber, ParseString, Skip, ParseMembers, ParseItems, StartsWith;
    NoWord(text, start);
    var p := SkipBlanks(text, start + 1);
    if At(text, p) == '}' {
      return Ok(Object([]), p + 1);
    }
    var members := ReadMembers(text, p);
    return if members.Fail? then Fail else Ok(Object(members.value), members.next);
  }

  // The loop of parse_object.
  method ReadMembers(text: string, start: nat) returns (r: Parsed<seq<Member>>)
    ensures r == ParseMembers(text, start)
    decreases Left(text, start), 2
  {
    hide ParseMember, Skip, ParseMembers, AfterMember;
    var m := ReadMember(text, start);
    FirstMember(text, start);
    if m.Fail? {
      return Fail;
    }
    var members := [m.value];
    var p := SkipBlanks(text, m.next);
    while At(text, p) == ','
      invariant p > start && ParseMembers(text, start) == AfterMember(text, members, p)
      decreases Left(text, p)
    {
      NextMember(text, members, p);
      m := ReadMember(text, p + 1);
      if m.Fail? {
        return Fail;
      }
      members := members + [m.value];
      p := SkipBlanks(text, m.next);
    }
    EndOfMembers(text, members, p);
    if At(text, p) == '}' {
      return Ok(members, p + 1);
    }
    return Fail;
  }

  ghost function AfterMember(text: string, members: seq<Member>, p: nat): Parsed<seq<Member>> {
    if At(text, p) == ',' then
      var rest := ParseMembers(text, p + 1);
      if rest.Fail? then Fail else Ok(members + rest.value, rest.next)
    else if At(text, p) == '}' then Ok(members, p + 1)
    else Fail
  }

  lemma FirstMember(text: string, p: nat)
    ensures var m := ParseMember(text, p);
      ParseMembers(text, p) == if m.Fail? then Fail else AfterMember(text, [m.value], Skip(text, m.next))
  {
    hide ParseMember, Skip, At;
  }

  lemma NextMember(text: string, members: seq<Member>, p: nat)
    requires At(text, p) == ','
    ensures var m := ParseMember(text, p + 1);
      AfterMember(text, members, p) == if m.Fail? then Fail
        else AfterMember(text, members + [m.value], Skip(text, m.next))
  {
    hide ParseMember, Skip, At, ParseMembers;
    FirstMember(text, p + 1);
    var m := ParseMember(text, p + 1);
    if m.Ok? && At(text, Skip(text, m.next)) == ',' {
      var rest := ParseMembers(text, Skip(text, m.next) + 1);
      if rest.Ok? { assert members + ([m.value] + rest.value) == (members + [m.value]) + rest.value; }
    }
  }

  lemma EndOfMembers(text: string, members: seq<Member>, p: nat)
    requires At(text, p) != ','
    ensures AfterMember(text, members, p) == if At(text, p) == '}' then Ok(members, p + 1) else Fail
  {
  }

  // cJSON_ParseWithOpts: a value after blanks; on request nothing but blanks after it.
  method Parse(text: string, requireEnd: bool) returns (r: Parsed<Json>)
    ensures var v := ParseValue(text, Skip(text, 0));
      && (v.Fail? ==> r.Fail?)
      && (v.Ok? && !requireEnd ==> r == v)
      && (v.Ok? && requireEnd ==>
            r == if At(text, Skip(text, v.next)) == NUL then Ok(v.value, Skip(text, v.next)) else Fail)
  {
    hide ParseValue, Skip;
    var p := SkipBlanks(text, 0);
    r := ReadValue(text, p);
    if r.Ok? && requireEnd {
      p := SkipBlanks(text, r.next);
      r := if At(text, p) == NUL then Ok(r.value, p) else Fail;
    }
  }

  // ----- Printing -----

  method WriteString(s: string) returns (out: string)
    ensures out == Quoted(s)
  {
    hide Escaped;
    out := ['\"'];
    var i := 0;
    while i < |s|
      invariant i <= |s| && out + EscapedAll(s[i..]) == ['\"'] + EscapedAll(s)
    {
      assert s[i..][1..] == s[i + 1..];
      out := out + Escaped(s[i]);
      i := i + 1;
    }
    out := out + ['\"'];
  }

  method WriteValue(v: Json, depth: nat, fmt: bool) returns (out: string)
    requires Printable(v)
    ensures out == Print(v, depth, fmt)
    decreases v, 2
  {
    match v
    case Null => out := "null";
    case False => out := "false";
    case True => out := "true";
    case Number(n, e) => out := Decimal(n);
    case String(s) => out := WriteString(s);
    case Array(items) => out := WriteArray(v, depth, fmt);
    case Object(members) => out := WriteObject(v, depth, fmt);
  }

  method WriteArray(v: Json, depth: nat, fmt: bool) returns (out: string)
    requires Printable(v) && v.Array?
    ensures out == Print(v, depth, fmt)
    decreases v, 1
  {
    hide PrintItems;
    var items := v.items;
    if items == [] {
      return "[]";
    }
    var entries := CollectItems(items, depth + 1, fmt);
    out := "[";
    var i := 0;
    while i < |items|
      invariant i <= |items|
      invariant out + PrintItems(items[i..], depth + 1, fmt) == "[" + PrintItems(items, depth + 1, fmt)
    {
      ItemsStep(items, i, depth + 1, fmt);
      out := out + entries[i];
      if i != |items| - 1 {
        out := out + ",";
        if fmt {
          out := out + " ";
        }
      }
      i := i + 1;
    }
    NoItems(items[i..], depth + 1, fmt);
    assert out == "[" + PrintItems(items, depth + 1, fmt);
    out := out + "]";
    assert out == "[" + (PrintItems(items, depth + 1, fmt) + "]");
  }

  method CollectItems(items: seq<Json>, depth: nat, fmt: bool) returns (entries: seq<string>)
    requires forall i | 0 <= i < |items| :: Printable(items[i])
    ensures |entries| == |items|
    ensures forall j | 0 <= j < |entries| :: entries[j] == Print(items[j], depth, fmt)
    decreases items, 0
  {
    hide Print;
    entries := [];
    while |entries| < |items|
      invariant |entries| <= |items|
      invariant forall j | 0 <= j < |entries| :: entries[j] == Print(items[j], depth, fmt)
    {
      var entry := WriteValue(items[|entries|], depth, fmt);
      entries := entries + [entry];
    }
  }

  lemma NoItems(items: seq<Json>, depth: nat, fmt: bool)
    requires items == []
    ensures PrintItems(items, depth, fmt) == []
  {
  }

  lemma ItemsStep(items: seq<Json>, i: nat, depth: nat, fmt: bool)
    requires i < |items|
    ensures PrintItems(items[i..], depth, fmt) ==
      Print(items[i], depth, fmt) + If(i < |items| - 1, "," + If(fmt, " ")) + PrintItems(items[i + 1..], depth, fmt)
  {
    hide Print;
    assert items[i..][1..] == items[i + 1..];
    if i == |items| - 1 { NoItems(items[i + 1..], depth, fmt); }
  }

  method WriteObject(v: Json, depth: nat, fmt: bool) returns (out: string)
    requires Printable(v) && v.Object?
    ensures out == Print(v, depth, fmt)
    decreases v, 0
  {
    hide PrintMembers, Tabs;
    if v.members == [] {
      out := "{";
      if fmt {
        var tabs := WriteTabs(if depth > 0 then depth - 1 else 0);
        out := out + ("\n" + tabs);
      }
      return out + "}";
    }
    out := if fmt then "{\n" else "{";
    var body := WriteMembers(v.members, depth + 1, fmt);
    out := out + body;
    if fmt {
      var tabs := WriteTabs(depth);
      out := out + tabs;
    }
    out := out + "}";
    assert out == "{" + (If(fmt, "\n") + (body + (If(fmt, Tabs(depth)) + "}")));
  }

  method CollectMembers(members: seq<Member>, depth: nat, fmt: bool) returns (entries: seq<string>)
    requires forall i | 0 <= i < |members| :: PrintableText(members[i].name) && Printable(members[i].value)
    ensures |entries| == |members|
    ensures forall j | 0 <= j < |entries| :: entries[j] == PrintMember(members[j], depth, fmt)
    decreases members, 0
  {
    hide PrintMember;
    entries := [];
    while |entries| < |members|
      invariant |entries| <= |members|
      invariant forall j | 0 <= j < |entries| :: entries[j] == PrintMember(members[j], depth, fmt)
    {
      var entry := WriteMember(members[|entries|], depth, fmt);
      entries := entries + [entry];
    }
  }

  method WriteMembers(members: seq<Member>, depth: nat, fmt: bool) returns (out: string)
    requires forall i | 0 <= i < |members| :: PrintableText(members[i].name) && Printable(members[i].value)
    ensures out == PrintMembers(members, depth, fmt)
    decreases members, 1
  {
    hide PrintMembers, Tabs, PrintMember, Printable;
    var entries := CollectMembers(members, depth, fmt);
    out := "";
    var i := 0;
    while i < |members|
      invariant i <= |members|
      invariant out + PrintMembers(members[i..], depth, fmt) == PrintMembers(members, depth, fmt)
    {
      MembersStep(members, i, depth, fmt);
      if fmt {
        var tabs := WriteTabs(depth);
        out := out + tabs;
      }
      out := out + entries[i];
      if i != |members| - 1 {
        out := out + ",";
      }
      if fmt {
        out := out + "\n";
      }
      i := i + 1;
    }
    NoMembersLeft(members[i..], depth, fmt);
  }

  lemma NoMembersLeft(members: seq<Member>, depth: nat, fmt: bool)
    requires members == []
    ensures PrintMembers(members, depth, fmt) == []
  {
  }

  lemma MembersStep(members: seq<Member>, i: nat, depth: nat, fmt: bool)
    requires i < |members|
    ensures PrintMembers(members[i..], depth, fmt) ==
      If(fmt, Tabs(depth)) + PrintMember(members[i], depth, fmt) + If(i < |members| - 1, ",") + If(fmt, "\n") +
      PrintMembers(members[i + 1..], depth, fmt)
  {
    hide PrintMember, Tabs;
    assert members[i..][1..] == members[i + 1..];
    if i == |members| - 1 { NoMembersLeft(members[i + 1..], depth, fmt); }
  }

  method WriteMember(m: Member, depth: nat, fmt: bool) returns (out: string)
    requires PrintableText(m.name) && Printable(m.value)
    ensures out == PrintMember(m, depth, fmt)
    decreases m, 0
  {
    hide Print, Quoted;
    var name := WriteString(m.name);
    var value := WriteValue(m.value, depth, fmt);
    out := name + ":";
    if fmt {
      out := out + "\t";
    }
    out := out + value;
  }

  method WriteTabs(n: nat) returns (out: string)
    ensures out == Tabs(n)
  {
    out := "";
    var i := 0;
    while i < n
      invariant i <= n && out + Tabs(n - i) == Tabs(n)
    {
      out := out + "\t";
      i := i + 1;
    }
  }

  // Printing a value and parsing the text, as the library does it.
  method PrintAndParse(v: Json, fmt: bool, requireEnd: bool) returns (text: string, r: Parsed<Json>)
    requires Printable(v)
    ensures r == Ok(v, |text|)
  {
    hide Print, ParseValue, Skip;
    text := WriteValue(v, 0, fmt);
    RoundTrip(v, fmt);
    r := Parse(text, requireEnd);
  }
}
