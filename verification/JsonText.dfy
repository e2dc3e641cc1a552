/**
 JSON values and their text: what the printer writes and what the parser reads.  Text is a sequence
 of 8-bit characters; reading at or past its end gives the terminating NUL.
*/
module JsonText {

  // A number is mantissa * 10^exponent.
  datatype Json =
    | Null
    | False
    | True
    | Number(mantissa: int, exponent: int)
    | String(text: string)
    | Array(items: seq<Json>)
    | Object(members: seq<Member>)

  datatype Member = Member(name: string, value: Json)

  datatype Parsed<T> = Fail | Ok(value: T, next: nat)

  const NUL: char := 0 as char

  function At(text: string, p: nat): char {
    if p < |text| then text[p] else NUL
  }

  function Left(text: string, p: nat): nat {
    if p < |text| then |text| - p else 0
  }

  // ----- Printing -----

  predicate NamedEscape(c: char) {
    c == '\"' || c == '\\' || c == 8 as char || c == 12 as char || c == '\n' || c == '\r' || c == '\t'
  }

  // The letter after the backslash.
  function EscapeLetter(c: char): char
    requires NamedEscape(c)
  {
    if c == 8 as char then 'b' else if c == 12 as char then 'f' else if c == '\n' then 'n'
    else if c == '\r' then 'r' else if c == '\t' then 't' else c
  }

  function HexDigit(d: nat): char
    requires d < 16
  {
    if d < 10 then ('0' as int + d) as char else ('a' as int + d - 10) as char
  }

  // The text of one character of a string; "%04x" of a character below 32 starts with two zeros.
  function Escaped(c: char): (r: string)
    ensures |r| >= 1
  {
    if c as int > 31 && c != '\"' && c != '\\' then [c]
    else if NamedEscape(c) then ['\\', EscapeLetter(c)]
    else ['\\', 'u', '0', '0', HexDigit(c as int / 16), HexDigit(c as int % 16)]
  }

  function EscapedAll(s: string): string {
    if s == [] then [] else Escaped(s[0]) + EscapedAll(s[1..])
  }

  function Quoted(s: string): string {
    ['\"'] + EscapedAll(s) + ['\"']
  }

  function Digits(n: nat): (r: string)
    ensures |r| >= 1
  {
    if n < 10 then [('0' as int + n) as char] else Digits(n / 10) + [('0' as int + n % 10) as char]
  }

  // "%d"
  function Decimal(n: int): string {
    if n < 0 then ['-'] + Digits(-n) else Digits(n)
  }

  function Tabs(n: nat): string {
    if n == 0 then [] else ['\t'] + Tabs(n - 1)
  }

  function If(b: bool, s: string): string {
    if b then s else []
  }

  // The values the printer has a text for: 32-bit integers, and no NUL inside a string.
  predicate Printable(v: Json) {
    match v
    case Number(n, e) => e == 0 && -0x8000_0000 <= n <= 0x7fff_ffff
    case String(s) => PrintableText(s)
    case Array(items) => forall i | 0 <= i < |items| :: Printable(items[i])
    case Object(members) => forall i | 0 <= i < |members| ::
      PrintableText(members[i].name) && Printable(members[i].value)
    case _ => true
  }

  predicate PrintableText(s: string) {
    forall i | 0 <= i < |s| :: 0 < s[i] as int < 256
  }

  function Print(v: Json, depth: nat, fmt: bool): string
    decreases v
  {
    match v
    case Null => "null"
    case False => "false"
    case True => "true"
    case Number(n, e) => Decimal(n)
    case String(s) => Quoted(s)
    case Array(items) => if items == [] then "[]" else "[" + (PrintItems(items, depth + 1, fmt) + "]")
    case Object(members) =>
      if members == [] then "{" + (If(fmt, "\n" + Tabs(if depth > 0 then depth - 1 else 0)) + "}")
      else "{" + (If(fmt, "\n") + (PrintMembers(members, depth + 1, fmt) + (If(fmt, Tabs(depth)) + "}")))
  }

  function PrintItems(items: seq<Json>, depth: nat, fmt: bool): string
    decreases items
  {
    if items == [] then []
    else if |items| == 1 then Print(items[0], depth, fmt)
    else Print(items[0], depth, fmt) + ("," + (If(fmt, " ") + PrintItems(items[1..], depth, fmt)))
  }

  function PrintMember(m: Member, depth: nat, fmt: bool): string
    decreases m
  {
    Quoted(m.name) + (":" + If(fmt, "\t")) + Print(m.value, depth, fmt)
  }

  function PrintMembers(members: seq<Member>, depth: nat, fmt: bool): string
    decreases members
  {
    if members == [] then []
    else If(fmt, Tabs(depth)) + (PrintMember(members[0], depth, fmt) +
           (If(|members| > 1, ",") + (If(fmt, "\n") + PrintMembers(members[1..], depth, fmt))))
  }

  // ----- Parsing -----

  // skip
  function Skip(text: string, p: nat): (q: nat)
    ensures q >= p && !(0 < At(text, q) as int <= 32)
    ensures forall i | p <= i < q :: 0 < At(text, i) as int <= 32
    decreases Left(text, p)
  {
    if 0 < At(text, p) as int <= 32 then Skip(text, p + 1) else p
  }

  predicate IsDigit(c: char) {
    '0' <= c <= '9'
  }

  function DigitValue(c: char): int {
    c as int - '0' as int
  }

  // A run of digits read on top of n.
  function ReadDigits(text: string, p: nat, n: nat): (r: (nat, nat))
    ensures r.1 >= p
    decreases Left(text, p)
  {
    if IsDigit(At(text, p)) then ReadDigits(text, p + 1, n * 10 + DigitValue(At(text, p))) else (n, p)
  }

  // parse_number; the number is sign * n * 10^(scale + exponent)
  function ParseNumber(text: string, p: nat): (r: Parsed<Json>)
    requires At(text, p) == '-' || IsDigit(At(text, p))
    ensures r.Ok? && r.next > p
  {
    var negative := At(text, p) == '-';
    var p1 := if negative then p + 1 else p;
    var p2 := if At(text, p1) == '0' then p1 + 1 else p1;
    var (n3, p3) := if '1' <= At(text, p2) <= '9' then ReadDigits(text, p2, 0) else (0, p2);
    var fraction := At(text, p3) == '.' && IsDigit(At(text, p3 + 1));
    var (n4, p4) := if fraction then ReadDigits(text, p3 + 1, n3) else (n3, p3);
    var scale: int := if fraction then p3 + 1 - p4 else 0;
    var (exponent, p5) := ParseExponent(text, p4);
    var m: int := n4;
    Ok(Number(if negative then -m else m, scale + exponent), p5)
  }

  function ParseExponent(text: string, p: nat): (r: (int, nat))
    ensures r.1 >= p
  {
    if At(text, p) != 'e' && At(text, p) != 'E' then (0, p) else
      var sign := At(text, p + 1) == '+' || At(text, p + 1) == '-';
      var (e, q) := ReadDigits(text, if sign then p + 2 else p + 1, 0);
      (if At(text, p + 1) == '-' then 0 - e else e, q)
  }

  function HexValue(c: char): (r: int)
    ensures -1 <= r < 16
  {
    if IsDigit(c) then DigitValue(c)
    else if 'A' <= c <= 'F' then 10 + c as int - 'A' as int
    else if 'a' <= c <= 'f' then 10 + c as int - 'a' as int
    else -1
  }

  // parse_hex4: 0 when one of the four characters is no hex digit
  function Hex4(text: string, p: nat): (r: nat)
    ensures r < 0x1_0000
  {
    var a, b, c, d := HexValue(At(text, p)), HexValue(At(text, p + 1)), HexValue(At(text, p + 2)),
      HexValue(At(text, p + 3));
    if a < 0 || b < 0 || c < 0 || d < 0 then 0 else a * 0x1000 + b * 0x100 + c * 0x10 + d
  }

  // UTF-8; (uc | 0x80) & 0xBF is 0x80 + uc % 64, and the marks of the first byte are free bits
  function Utf8(uc: nat): string
    requires uc < 0x11_0000
  {
    if uc < 0x80 then [uc as char]
    else if uc < 0x800 then [(0xC0 + uc / 0x40) as char, (0x80 + uc % 0x40) as char]
    else if uc < 0x1_0000 then
      [(0xE0 + uc / 0x1000) as char, (0x80 + uc / 0x40 % 0x40) as char, (0x80 + uc % 0x40) as char]
    else
      [(0xF0 + uc / 0x4_0000) as char, (0x80 + uc / 0x1000 % 0x40) as char,
       (0x80 + uc / 0x40 % 0x40) as char, (0x80 + uc % 0x40) as char]
  }

  // The escape whose 'u' is at p: what it adds to the string, and where the text goes on.
  function ParseUnicode(text: string, p: nat): (r: (string, nat))
    ensures r.1 > p
  {
    var uc := Hex4(text, p + 1);
    var q := p + 4;
    if 0xDC00 <= uc <= 0xDFFF || uc == 0 then ("", q + 1)
    else if 0xD800 <= uc <= 0xDBFF then
      if At(text, q + 1) != '\\' || At(text, q + 2) != 'u' then ("", q + 1) else
        var uc2 := Hex4(text, q + 3);
        if uc2 < 0xDC00 || uc2 > 0xDFFF then ("", q + 7)
        else (Utf8(0x1_0000 + uc % 0x400 * 0x400 + uc2 % 0x400), q + 7)
    else (Utf8(uc), q + 1)
  }

  // The escape whose letter is at p.
  function ParseEscape(text: string, p: nat): (r: (string, nat))
    ensures r.1 > p
  {
    var c := At(text, p);
    if c == 'b' then ([8 as char], p + 1)
    else if c == 'f' then ([12 as char], p + 1)
    else if c == 'n' then ("\n", p + 1)
    else if c == 'r' then ("\r", p + 1)
    else if c == 't' then ("\t", p + 1)
    else if c == 'u' then ParseUnicode(text, p)
    else ([c], p + 1)
  }

  // The characters of a string up to the closing quote or the end of the text.
  function ParseChars(text: string, p: nat): (r: (string, nat))
    ensures r.1 >= p
    decreases Left(text, p)
  {
    var c := At(text, p);
    if c == '\"' || c == NUL then ([], p)
    else if c != '\\' then
      var (s, q) := ParseChars(text, p + 1);
      ([c] + s, q)
    else
      var (e, p1) := ParseEscape(text, p + 1);
      var (s, q) := ParseChars(text, p1);
      (e + s, q)
  }

  function ParseString(text: string, p: nat): (r: Parsed<string>)
    ensures r.Ok? ==> r.next > p
  {
    if At(text, p) != '\"' then Fail else
      var (s, q) := ParseChars(text, p + 1);
      Ok(s, if At(text, q) == '\"' then q + 1 else q)
  }

  // strncmp(text + p, word, |word|) == 0, for a word without NUL
  predicate StartsWith(text: string, p: nat, word: string) {
    p + |word| <= |text| && text[p..p + |word|] == word
  }

  function ParseValue(text: string, p: nat): (r: Parsed<Json>)
    ensures r.Ok? ==> r.next > p
    decreases Left(text, p), 0
  {
    if StartsWith(text, p, "null") then Ok(Null, p + 4)
    else if StartsWith(text, p, "false") then Ok(False, p + 5)
    else if StartsWith(text, p, "true") then Ok(True, p + 4)
    else if At(text, p) == '\"' then
      var r := ParseString(text, p);
      if r.Fail? then Fail else Ok(String(r.value), r.next)
    else if At(text, p) == '-' || IsDigit(At(text, p)) then ParseNumber(text, p)
    else if At(text, p) == '[' then
      var q := Skip(text, p + 1);
      if At(text, q) == ']' then Ok(Array([]), q + 1) else
        var r := ParseItems(text, q);
        if r.Fail? then Fail else Ok(Array(r.value), r.next)
    else if At(text, p) == '{' then
      var q := Skip(text, p + 1);
      if At(text, q) == '}' then Ok(Object([]), q + 1) else
        var r := ParseMembers(text, q);
        if r.Fail? then Fail else Ok(Object(r.value), r.next)
    else Fail
  }

  // One or more values with commas between them, and the closing bracket.
  function ParseItems(text: string, p: nat): (r: Parsed<seq<Json>>)
    ensures r.Ok? ==> r.next > p
    decreases Left(text, p), 1
  {
    var v := ParseValue(text, Skip(text, p));
    if v.Fail? then Fail else
      var q := Skip(text, v.next);
      if At(text, q) == ',' then
        var rest := ParseItems(text, q + 1);
        if rest.Fail? then Fail else Ok([v.value] + rest.value, rest.next)
      else if At(text, q) == ']' then Ok([v.value], q + 1)
      else Fail
  }

  // A name, a colon and a value.
  function ParseMember(text: string, p: nat): (r: Parsed<Member>)
    ensures r.Ok? ==> r.next > p
    decreases Left(text, p), 1
  {
    var name := ParseString(text, Skip(text, p));
    if name.Fail? then Fail else
      var q := Skip(text, name.next);
      if At(text, q) != ':' then Fail else
        var v := ParseValue(text, Skip(text, q + 1));
        if v.Fail? then Fail else Ok(Member(name.value, v.value), v.next)
  }

  function ParseMembers(text: string, p: nat): (r: Parsed<seq<Member>>)
    ensures r.Ok? ==> r.next > p
    decreases Left(text, p), 2
  {
    var m := ParseMember(text, p);
    if m.Fail? then Fail else
      var q := Skip(text, m.next);
      if At(text, q) == ',' then
        var rest := ParseMembers(text, q + 1);
        if rest.Fail? then Fail else Ok([m.value] + rest.value, rest.next)
      else if At(text, q) == '}' then Ok([m.value], q + 1)
      else Fail
  }
}
