/**
 What the escapes of a JSON string mean, by section 7 of RFC 8259, with the characters in UTF-8
 (section 3 of RFC 3629), and that the parser reads them so.
*/
module JsonStrings {
  import opened JsonText
  import opened JsonRoundTrip

  datatype Option<T> = None | Some(value: T)

  // ----- UTF-8 -----

  // Bytes 10xxxxxx, six bits each on top of n.
  function Continued(n: nat, s: string): Option<nat>
    decreases |s|
  {
    if s == [] then Some(n)
    else if 0x80 <= s[0] as int < 0xC0 then Continued(n * 0x40 + (s[0] as int - 0x80), s[1..])
    else None
  }

  function AtLeast(low: nat, n: Option<nat>): Option<nat> {
    if n.Some? && low <= n.value < 0x11_0000 then n else None
  }

  // The number that a sequence of bytes stands for; the shortest sequence is the only one.
  function CodePoint(s: string): Option<nat> {
    if s == [] then None else
      var b := s[0] as int;
      if b < 0x80 && |s| == 1 then Some(b)
      else if 0xC0 <= b < 0xE0 && |s| == 2 then AtLeast(0x80, Continued(b - 0xC0, s[1..]))
      else if 0xE0 <= b < 0xF0 && |s| == 3 then AtLeast(0x800, Continued(b - 0xE0, s[1..]))
      else if 0xF0 <= b < 0xF8 && |s| == 4 then AtLeast(0x1_0000, Continued(b - 0xF0, s[1..]))
      else None
  }

  predicate Continues(c: char) {
    0x80 <= c as int < 0xC0
  }

  function SixBits(c: char): nat
    requires Continues(c)
  {
    c as int - 0x80
  }

  lemma One(n: nat, a: char)
    ensures Continued(n, [a]) == if Continues(a) then Some(n * 0x40 + SixBits(a)) else None
  {
  }

  lemma Two(n: nat, a: char, b: char)
    ensures Continued(n, [a, b]) ==
      if Continues(a) && Continues(b) then Some((n * 0x40 + SixBits(a)) * 0x40 + SixBits(b)) else None
  {
    hide Continued;
    TakeOne(n, a, [b]);
    assert [a] + [b] == [a, b];
    if Continues(a) { One(n * 0x40 + SixBits(a), b); }
  }

  lemma Three(n: nat, a: char, b: char, c: char)
    ensures Continued(n, [a, b, c]) ==
      if Continues(a) && Continues(b) && Continues(c)
      then Some(((n * 0x40 + SixBits(a)) * 0x40 + SixBits(b)) * 0x40 + SixBits(c)) else None
  {
    hide Continued;
    TakeOne(n, a, [b, c]);
    assert [a] + [b, c] == [a, b, c];
    if Continues(a) { Two(n * 0x40 + SixBits(a), b, c); }
  }

  lemma TakeOne(n: nat, a: char, s: string)
    ensures Continued(n, [a] + s) == if Continues(a) then Continued(n * 0x40 + SixBits(a), s) else None
  {
    assert ([a] + s)[1..] == s;
  }

  // Six bits off the end and back on.
  lemma SixBitsOff(uc: nat)
    ensures uc / 0x40 * 0x40 + uc % 0x40 == uc && uc / 0x1000 == uc / 0x40 / 0x40 && uc / 0x4_0000 == uc / 0x1000 / 0x40
  {
  }

  // The bytes of a number stand for it ...
  lemma Utf8Decodes(uc: nat)
    requires uc < 0x11_0000
    ensures CodePoint(Utf8(uc)) == Some(uc)
  {
    if 0x80 <= uc < 0x800 {
      Utf8Of2(uc);
    } else if 0x800 <= uc < 0x1_0000 {
      Utf8Of3(uc);
    } else if 0x1_0000 <= uc {
      Utf8Of4(uc);
    }
  }

  lemma Utf8Of2(uc: nat)
    requires 0x80 <= uc < 0x800
    ensures CodePoint(Utf8(uc)) == Some(uc)
  {
    hide Continued;
    var s := Utf8(uc);
    assert s[1..] == [s[1]];
    One(uc / 0x40, s[1]);
  }

  lemma Utf8Of3(uc: nat)
    requires 0x800 <= uc < 0x1_0000
    ensures CodePoint(Utf8(uc)) == Some(uc)
  {
    hide Continued;
    var s := Utf8(uc);
    assert s[1..] == [s[1], s[2]];
    SixBitsOff(uc);
    SixBitsOff(uc / 0x40);
    Two(uc / 0x1000, s[1], s[2]);
  }

  lemma Utf8Of4(uc: nat)
    requires 0x1_0000 <= uc < 0x11_0000
    ensures CodePoint(Utf8(uc)) == Some(uc)
  {
    hide Continued;
    var s := Utf8(uc);
    assert s[1..] == [s[1], s[2], s[3]];
    SixBitsOff(uc);
    SixBitsOff(uc / 0x40);
    SixBitsOff(uc / 0x1000);
    Three(uc / 0x4_0000, s[1], s[2], s[3]);
  }

  // ... and no other bytes do.
  lemma DecodedIsUtf8(s: string, uc: nat)
    requires CodePoint(s) == Some(uc)
    ensures uc < 0x11_0000 && s == Utf8(uc)
  {
    hide Utf8;
    if |s| == 1 {
      OneByte(s, uc);
    } else if |s| == 2 {
      TwoBytes(s, uc);
    } else if |s| == 3 {
      ThreeBytes(s, uc);
    } else {
      FourBytes(s, uc);
    }
  }

  lemma OneByte(s: string, uc: nat)
    requires CodePoint(s) == Some(uc) && |s| == 1
    ensures uc < 0x11_0000 && s == Utf8(uc)
  {
  }

  lemma TwoBytes(s: string, uc: nat)
    requires CodePoint(s) == Some(uc) && |s| == 2
    ensures uc < 0x11_0000 && s == Utf8(uc)
  {
    hide Continued;
    assert s[1..] == [s[1]];
    One(s[0] as int - 0xC0, s[1]);
  }

  lemma ThreeBytes(s: string, uc: nat)
    requires CodePoint(s) == Some(uc) && |s| == 3
    ensures uc < 0x11_0000 && s == Utf8(uc)
  {
    hide Continued;
    assert s[1..] == [s[1], s[2]];
    Two(s[0] as int - 0xE0, s[1], s[2]);
    SixBitsOn(s[0] as int - 0xE0, s[1]);
    SixBitsOn((s[0] as int - 0xE0) * 0x40 + SixBits(s[1]), s[2]);
    SixBitsOff(uc);
  }

  lemma FourBytes(s: string, uc: nat)
    requires CodePoint(s) == Some(uc) && |s| == 4
    ensures uc < 0x11_0000 && s == Utf8(uc)
  {
    hide Continued;
    assert s[1..] == [s[1], s[2], s[3]];
    var n := s[0] as int - 0xF0;
    Three(n, s[1], s[2], s[3]);
    var n1 := n * 0x40 + SixBits(s[1]);
    var n2 := n1 * 0x40 + SixBits(s[2]);
    SixBitsOn(n, s[1]);
    SixBitsOn(n1, s[2]);
    SixBitsOn(n2, s[3]);
    SixBitsOff(uc);
  }

  lemma SixBitsOn(n: nat, c: char)
    requires Continues(c)
    ensures (n * 0x40 + SixBits(c)) / 0x40 == n && (n * 0x40 + SixBits(c)) % 0x40 == SixBits(c)
  {
  }

  // ----- Escapes -----

  // c is the hexadecimal digit d, in either case.
  predicate IsHex(c: char, d: nat) {
    d < 16 && (c == "0123456789abcdef"[d] || c == "0123456789ABCDEF"[d])
  }

  // Four hexadecimal digits.
  predicate Spells(u: string, n: nat) {
    |u| == 4 && IsHex(u[0], n / 0x1000) && IsHex(u[1], n / 0x100 % 0x10) && IsHex(u[2], n / 0x10 % 0x10)
      && IsHex(u[3], n % 0x10)
  }

  predicate Surrogate(n: nat) {
    0xD800 <= n < 0xE000
  }

  function HighSurrogate(code: nat): nat
    requires code >= 0x1_0000
  {
    0xD800 + (code - 0x1_0000) / 0x400
  }

  function LowSurrogate(code: nat): nat
    requires code >= 0x1_0000
  {
    0xDC00 + (code - 0x1_0000) % 0x400
  }

  // The pieces of a string between its quotes.
  datatype Piece =
    | Plain(c: char)
    | Letter(c: char)
    | Unit(code: nat, digits: string)
    | Pair(code: nat, high: string, low: string)

  predicate PieceOk(piece: Piece) {
    match piece
    case Plain(c) => c != '\"' && c != '\\' && c != NUL
    case Letter(c) => c in "\"\\/bfnrt"
    case Unit(code, digits) => Spells(digits, code) && code != 0 && !Surrogate(code)
    case Pair(code, high, low) =>
      0x1_0000 <= code < 0x11_0000 && Spells(high, HighSurrogate(code)) && Spells(low, LowSurrogate(code))
  }

  function TextOf(piece: Piece): string {
    match piece
    case Plain(c) => [c]
    case Letter(c) => ['\\', c]
    case Unit(_, digits) => "\\u" + digits
    case Pair(_, high, low) => "\\u" + high + "\\u" + low
  }

  // What a letter after the backslash stands for.
  function ControlOf(c: char): char {
    match c
    case 'b' => 8 as char
    case 'f' => 12 as char
    case 'n' => '\n'
    case 'r' => '\r'
    case 't' => '\t'
    case _ => c
  }

  function Meaning(piece: Piece): string
    requires PieceOk(piece)
  {
    match piece
    case Plain(c) => [c]
    case Letter(c) => [ControlOf(c)]
    case Unit(code, _) => SpellsSmall(piece.digits, code); Utf8(code)
    case Pair(code, _, _) => Utf8(code)
  }

  lemma SpellsSmall(u: string, n: nat)
    requires Spells(u, n)
    ensures n < 0x1_0000
  {
  }

  lemma HexIs(c: char, d: nat)
    requires IsHex(c, d)
    ensures HexValue(c) == d
  {
  }

  lemma HexOnly(c: char)
    requires HexValue(c) >= 0
    ensures IsHex(c, HexValue(c))
  {
  }

  // Where a text stands, its characters stand.
  lemma CharIs(text: string, p: nat, s: string, i: nat)
    requires StartsWith(text, p, s) && i < |s|
    ensures At(text, p + i) == s[i]
  {
    assert text[p + i] == text[p..p + |s|][i];
  }

  // The digits are read in any case ...
  lemma HexReads(text: string, p: nat, u: string, n: nat)
    requires StartsWith(text, p, u) && Spells(u, n)
    ensures Hex4(text, p) == n
  {
    hide HexValue, At, StartsWith, IsHex;
    CharIs(text, p, u, 0); CharIs(text, p, u, 1); CharIs(text, p, u, 2); CharIs(text, p, u, 3);
    HexSum(n);
    HexIs(u[0], n / 0x1000); HexIs(u[1], n / 0x100 % 0x10); HexIs(u[2], n / 0x10 % 0x10); HexIs(u[3], n % 0x10);
  }

  // ... and nothing else is.
  lemma HexWasThere(text: string, p: nat) returns (u: string)
    requires Hex4(text, p) != 0
    ensures Spells(u, Hex4(text, p)) && StartsWith(text, p, u)
  {
    hide HexValue, IsHex;
    assert HexValue(NUL) < 0 by { NulIsNoHex(); }
    HexOnly(At(text, p)); HexOnly(At(text, p + 1)); HexOnly(At(text, p + 2)); HexOnly(At(text, p + 3));
    HexDigits(HexValue(text[p]), HexValue(text[p + 1]), HexValue(text[p + 2]), HexValue(text[p + 3]));
    u := text[p..p + 4];
  }

  lemma NulIsNoHex()
    ensures HexValue(NUL) < 0
  {
  }

  // Four bits on the end and off again.
  lemma FourBits(n: nat, d: nat)
    requires d < 16
    ensures (n * 0x10 + d) / 0x10 == n && (n * 0x10 + d) % 0x10 == d
  {
  }

  lemma Nibbles(n: nat)
    ensures n == n / 0x10 * 0x10 + n % 0x10
    ensures n / 0x100 == n / 0x10 / 0x10 && n / 0x1000 == n / 0x100 / 0x10
  {
  }

  lemma HexSum(n: nat)
    ensures n == n / 0x1000 * 0x1000 + n / 0x100 % 0x10 * 0x100 + n / 0x10 % 0x10 * 0x10 + n % 0x10
  {
    Nibbles(n);
    Nibbles(n / 0x10);
    Nibbles(n / 0x100);
  }

  lemma HexDigits(a: nat, b: nat, c: nat, d: nat)
    requires a < 16 && b < 16 && c < 16 && d < 16
    ensures var n := a * 0x1000 + b * 0x100 + c * 0x10 + d;
      n / 0x1000 == a && n / 0x100 % 0x10 == b && n / 0x10 % 0x10 == c && n % 0x10 == d
  {
    Nibbles(a * 0x1000 + b * 0x100 + c * 0x10 + d);
    FourBits((a * 0x10 + b) * 0x10 + c, d);
    FourBits(a * 0x10 + b, c);
    FourBits(a, b);
  }

  // ----- The parser -----

  lemma UnitParses(text: string, p: nat, piece: Piece)
    requires piece.Unit? && PieceOk(piece) && StartsWith(text, p, TextOf(piece))
    ensures At(text, p) == '\\' && ParseEscape(text, p + 1) == (Meaning(piece), p + 6)
  {
    hide Hex4, Utf8, Spells;
    var s := TextOf(piece);
    CharIs(text, p, s, 0); CharIs(text, p, s, 1);
    Concat(text, p, "\\u", piece.digits);
    SpellsSmall(piece.digits, piece.code);
    HexReads(text, p + 2, piece.digits, piece.code);
    SpelledIsFour(piece.digits, piece.code);
  }

  lemma SpelledIsFour(u: string, n: nat)
    requires Spells(u, n)
    ensures |u| == 4
  {
  }

  lemma PairParses(text: string, p: nat, piece: Piece)
    requires piece.Pair? && PieceOk(piece) && StartsWith(text, p, TextOf(piece))
    ensures At(text, p) == '\\' && ParseEscape(text, p + 1) == (Meaning(piece), p + 12)
  {
    hide Hex4, Utf8, Spells;
    var s, high, low := TextOf(piece), HighSurrogate(piece.code), LowSurrogate(piece.code);
    SpelledIsFour(piece.high, high);
    SpelledIsFour(piece.low, low);
    CharIs(text, p, s, 0); CharIs(text, p, s, 1); CharIs(text, p, s, 6); CharIs(text, p, s, 7);
    Concat(text, p, "\\u" + piece.high + "\\u", piece.low);
    Concat(text, p, "\\u" + piece.high, "\\u");
    Concat(text, p, "\\u", piece.high);
    HexReads(text, p + 2, piece.high, high);
    HexReads(text, p + 8, piece.low, low);
  }

  lemma LetterParses(text: string, p: nat, piece: Piece)
    requires piece.Letter? && PieceOk(piece) && StartsWith(text, p, TextOf(piece))
    ensures At(text, p) == '\\' && ParseEscape(text, p + 1) == (Meaning(piece), p + 2)
  {
    hide Hex4, Utf8, Spells;
    CharIs(text, p, TextOf(piece), 0); CharIs(text, p, TextOf(piece), 1);
  }

  function TextOfAll(pieces: seq<Piece>): string {
    if pieces == [] then [] else TextOf(pieces[0]) + TextOfAll(pieces[1..])
  }

  function MeaningOfAll(pieces: seq<Piece>): string
    requires forall i | 0 <= i < |pieces| :: PieceOk(pieces[i])
  {
    if pieces == [] then [] else Meaning(pieces[0]) + MeaningOfAll(pieces[1..])
  }

  lemma PieceParses(text: string, p: nat, piece: Piece)
    requires PieceOk(piece) && StartsWith(text, p, TextOf(piece))
    ensures var q := p + |TextOf(piece)|;
      ParseChars(text, p) == (Meaning(piece) + ParseChars(text, q).0, ParseChars(text, q).1)
  {
    hide ParseEscape, Utf8, StartsWith;
    match piece
    case Plain(c) => CharIs(text, p, [c], 0);
    case Letter(_) => LetterParses(text, p, piece);
    case Unit(code, digits) => UnitParses(text, p, piece);
    case Pair(code, high, low) => PairParses(text, p, piece);
  }

  lemma {:induction false} PiecesParse(text: string, p: nat, pieces: seq<Piece>)
    requires forall i | 0 <= i < |pieces| :: PieceOk(pieces[i])
    requires StartsWith(text, p, TextOfAll(pieces) + ['\"'])
    ensures ParseChars(text, p) == (MeaningOfAll(pieces), p + |TextOfAll(pieces)|)
    decreases |pieces|
  {
    hide ParseChars, PieceOk, Meaning, TextOf;
    Concat(text, p, TextOfAll(pieces), ['\"']);
    if pieces == [] {
      FirstIs(text, p, ['\"']);
      CharsEnd(text, p);
    } else {
      var s, rest := TextOf(pieces[0]), TextOfAll(pieces[1..]);
      assert TextOfAll(pieces) + ['\"'] == s + (rest + ['\"']);
      Concat(text, p, s, rest + ['\"']);
      PieceParses(text, p, pieces[0]);
      PiecesParse(text, p + |s|, pieces[1..]);
    }
  }

  // Every string, in every spelling, is read as the characters it stands for.
  lemma StringMeans(text: string, p: nat, pieces: seq<Piece>)
    requires forall i | 0 <= i < |pieces| :: PieceOk(pieces[i])
    requires StartsWith(text, p, ['\"'] + (TextOfAll(pieces) + ['\"']))
    ensures ParseString(text, p) == Ok(MeaningOfAll(pieces), p + |TextOfAll(pieces)| + 2)
  {
    hide ParseChars, MeaningOfAll, TextOfAll, PieceOk;
    Concat(text, p, ['\"'], TextOfAll(pieces) + ['\"']);
    FirstIs(text, p, ['\"']);
    PiecesParse(text, p + 1, pieces);
    Concat(text, p + 1, TextOfAll(pieces), ['\"']);
    FirstIs(text, p + 1 + |TextOfAll(pieces)|, ['\"']);
  }

  lemma BackslashU(text: string, p: nat)
    requires At(text, p) == '\\' && At(text, p + 1) == 'u'
    ensures StartsWith(text, p, "\\u")
  {
  }

  lemma Halves(high: nat, low: nat)
    requires 0xD800 <= high < 0xDC00 && 0xDC00 <= low < 0xE000
    ensures var code := 0x1_0000 + high % 0x400 * 0x400 + low % 0x400;
      code < 0x11_0000 && HighSurrogate(code) == high && LowSurrogate(code) == low
  {
  }

  // A \u escape adds something only if it is a code point of its own or a surrogate pair.
  lemma NothingElse(text: string, p: nat) returns (piece: Piece)
    requires At(text, p) == '\\' && At(text, p + 1) == 'u' && ParseEscape(text, p + 1).0 != ""
    ensures (piece.Unit? || piece.Pair?) && PieceOk(piece) && StartsWith(text, p, TextOf(piece))
  {
    hide Hex4, Utf8, Spells, StartsWith, HighSurrogate, LowSurrogate, At;
    var n := Hex4(text, p + 2);
    var digits := HexWasThere(text, p + 2);
    BackslashU(text, p);
    SpelledIsFour(digits, n);
    Concat(text, p, "\\u", digits);
    if Surrogate(n) {
      var n2 := Hex4(text, p + 8);
      var digits2 := HexWasThere(text, p + 8);
      BackslashU(text, p + 6);
      Halves(n, n2);
      piece := Pair(0x1_0000 + n % 0x400 * 0x400 + n2 % 0x400, digits, digits2);
      Concat(text, p, "\\u" + digits, "\\u");
      Concat(text, p, "\\u" + digits + "\\u", digits2);
    } else {
      piece := Unit(n, digits);
    }
  }
}
