/**
 What the text of a JSON number means, by section 6 of RFC 8259, and that the parser reads it so.
 A string of digits has the sum of its digits times the powers of ten of their places as its value.
*/
module JsonNumbers {
  import opened JsonText
  import opened JsonRoundTrip

  function Pow10(k: nat): (r: nat)
    ensures r >= 1
  {
    if k == 0 then 1 else 10 * Pow10(k - 1)
  }

  predicate AllDigits(d: string) {
    forall i | 0 <= i < |d| :: IsDigit(d[i])
  }

  // What the digit in place i contributes.
  function PlaceValue(d: string, i: nat): nat
    requires AllDigits(d) && i < |d|
  {
    (d[i] as int - '0' as int) * Pow10(|d| - 1 - i)
  }

  // The first n places.
  function Places(d: string, n: nat): nat
    requires AllDigits(d) && n <= |d|
  {
    if n == 0 then 0 else Places(d, n - 1) + PlaceValue(d, n - 1)
  }

  function ValueOf(d: string): nat
    requires AllDigits(d)
  {
    Places(d, |d|)
  }

  // A number: "-", an integer part, a fraction, and an exponent behind "e" or "E" and perhaps a sign.
  datatype Exponent = NoExponent | Exponent(mark: char, sign: string, digits: string)

  datatype Spelling = Spelling(negative: bool, whole: string, fraction: string, exponent: Exponent)

  predicate ExponentOk(e: Exponent) {
    e.Exponent? ==>
      && (e.mark == 'e' || e.mark == 'E') && (e.sign == "" || e.sign == "+" || e.sign == "-")
      && e.digits != "" && AllDigits(e.digits)
  }

  // No zero before other digits; no digits behind the point mean no point.
  predicate SpellingOk(s: Spelling) {
    && AllDigits(s.whole) && AllDigits(s.fraction) && ExponentOk(s.exponent)
    && (s.whole == "0" || (s.whole != "" && s.whole[0] != '0'))
  }

  function TextOfExponent(e: Exponent): string {
    if e.NoExponent? then "" else [e.mark] + e.sign + e.digits
  }

  function TextOfFraction(fraction: string): string {
    if fraction == "" then "" else "." + fraction
  }

  function TextOfNumber(s: Spelling): string {
    (if s.negative then "-" else "") + (s.whole + (TextOfFraction(s.fraction) + TextOfExponent(s.exponent)))
  }

  function Power(e: Exponent): int
    requires ExponentOk(e)
  {
    if e.NoExponent? then 0 else if e.sign == "-" then 0 - ValueOf(e.digits) else ValueOf(e.digits)
  }

  // All digits as one number, times a power of ten.
  function NumberOf(s: Spelling): Json
    requires SpellingOk(s)
  {
    var m: int := ValueOf(s.whole + s.fraction);
    Number(if s.negative then 0 - m else m, Power(s.exponent) - |s.fraction|)
  }

  // ----- Values of digits -----

  lemma {:induction false} PlacesOfPrefix(d: string, c: char, n: nat)
    requires AllDigits(d) && IsDigit(c) && n <= |d|
    ensures AllDigits(d + [c])
    ensures Places(d + [c], n) == 10 * Places(d, n)
  {
    hide PlaceValue;
    if n > 0 {
      PlacesOfPrefix(d, c, n - 1);
      PlaceShifts(d, c, n - 1);
    }
  }

  lemma PlaceShifts(d: string, c: char, i: nat)
    requires AllDigits(d) && IsDigit(c) && i < |d|
    ensures AllDigits(d + [c]) && PlaceValue(d + [c], i) == 10 * PlaceValue(d, i)
  {
    hide Pow10;
    NextPower(|d| - 1 - i);
    TimesTen(d[i] as int - '0' as int, Pow10(|d| - 1 - i));
  }

  lemma NextPower(k: nat)
    ensures Pow10(k + 1) == 10 * Pow10(k)
  {
  }

  lemma TimesTen(a: nat, b: nat)
    ensures a * (10 * b) == 10 * (a * b)
  {
  }

  lemma ValueAppend(d: string, c: char)
    requires AllDigits(d) && IsDigit(c)
    ensures AllDigits(d + [c]) && ValueOf(d + [c]) == 10 * ValueOf(d) + DigitValue(c)
  {
    hide Places;
    PlacesOfPrefix(d, c, |d|);
    LastPlace(d + [c]);
    assert Pow10(0) == 1;
  }

  lemma LastPlace(d: string)
    requires AllDigits(d) && d != ""
    ensures Places(d, |d|) == Places(d, |d| - 1) + PlaceValue(d, |d| - 1)
  {
  }

  // Reading a string of digits continues the number read so far.
  lemma {:induction false} DigitsRead(text: string, p: nat, before: string, d: string)
    requires AllDigits(before) && AllDigits(d) && StartsWith(text, p, d) && !IsDigit(At(text, p + |d|))
    ensures AllDigits(before + d)
    ensures ReadDigits(text, p, ValueOf(before)) == (ValueOf(before + d), p + |d|)
    decreases |d|
  {
    hide ValueOf, At, StartsWith;
    if d == "" {
      assert before + d == before;
      StopsAt(text, p, ValueOf(before));
    } else {
      assert d == [d[0]] + d[1..];
      assert before + d == before + [d[0]] + d[1..];
      Concat(text, p, [d[0]], d[1..]);
      FirstIs(text, p, [d[0]]);
      ValueAppend(before, d[0]);
      DigitsRead(text, p + 1, before + [d[0]], d[1..]);
      ReadOne(text, p, ValueOf(before));
    }
  }

  lemma ReadOne(text: string, p: nat, n: nat)
    requires IsDigit(At(text, p))
    ensures ReadDigits(text, p, n) == ReadDigits(text, p + 1, 10 * n + DigitValue(At(text, p)))
  {
  }

  lemma NoDigits()
    ensures ValueOf("") == 0
  {
  }

  lemma ValueOfZero()
    ensures ValueOf("0") == 0
  {
    assert Places("0", 0) == 0;
  }

  // ----- The parser -----

  lemma ExponentMeans(text: string, p: nat, e: Exponent)
    requires ExponentOk(e) && StartsWith(text, p, TextOfExponent(e)) && EndsNumber(At(text, p + |TextOfExponent(e)|))
    ensures ParseExponent(text, p) == (Power(e), p + |TextOfExponent(e)|)
  {
    hide ValueOf, ReadDigits, StartsWith, At;
    if e.Exponent? {
      var q := p + 1 + |e.sign|;
      Concat(text, p, [e.mark] + e.sign, e.digits);
      Concat(text, p, [e.mark], e.sign);
      FirstIs(text, p, [e.mark]);
      FirstIs(text, q, e.digits);
      if e.sign != "" { FirstIs(text, p + 1, e.sign); }
      NoDigits();
      DigitsRead(text, q, "", e.digits);
      assert "" + e.digits == e.digits;
    }
  }

  // Where the exponent begins, no digit and no point stands.
  lemma ExponentStart(text: string, p: nat, e: Exponent)
    requires ExponentOk(e) && StartsWith(text, p, TextOfExponent(e)) && EndsNumber(At(text, p + |TextOfExponent(e)|))
    ensures !IsDigit(At(text, p)) && At(text, p) != '.'
  {
    if e.Exponent? { FirstIs(text, p, TextOfExponent(e)); }
  }

  // Every number in every spelling is read as the number it denotes, and exactly its text is consumed.
  lemma NumberMeans(text: string, p: nat, s: Spelling)
    requires SpellingOk(s) && StartsWith(text, p, TextOfNumber(s)) && EndsNumber(At(text, p + |TextOfNumber(s)|))
    ensures At(text, p) == '-' || IsDigit(At(text, p))
    ensures ParseNumber(text, p) == Ok(NumberOf(s), p + |TextOfNumber(s)|)
  {
    hide ValueOf, ReadDigits, StartsWith, At, ParseExponent, Power, TextOfExponent, ExponentOk, AllDigits;
    var sign := if s.negative then "-" else "";
    var exponent, fraction := TextOfExponent(s.exponent), TextOfFraction(s.fraction);
    var p1 := p + |sign|;
    var p3 := p1 + |s.whole|;
    var p4 := p3 + |fraction|;
    Concat(text, p, sign, s.whole + (fraction + exponent));
    Concat(text, p1, s.whole, fraction + exponent);
    Concat(text, p3, fraction, exponent);
    if s.negative { FirstIs(text, p, "-"); }
    FirstIs(text, p1, s.whole);
    ExponentStart(text, p4, s.exponent);
    ExponentMeans(text, p4, s.exponent);
    FirstDigitOf(s.whole);
    if s.fraction != "" {
      Concat(text, p3, ".", s.fraction);
      FirstIs(text, p3, ".");
      FirstIs(text, p3 + 1, s.fraction);
      FirstDigitOf(s.fraction);
      DigitsRead(text, p3 + 1, s.whole, s.fraction);
    }
    WholeMeans(text, p1, s.whole);
    assert s.fraction == "" ==> s.whole + s.fraction == s.whole;
  }

  lemma FirstDigitOf(d: string)
    requires AllDigits(d) && d != ""
    ensures IsDigit(d[0])
  {
  }

  // The integer part: a zero is skipped, other digits are read.
  lemma WholeMeans(text: string, p: nat, whole: string)
    requires AllDigits(whole) && (whole == "0" || (whole != "" && whole[0] != '0'))
    requires StartsWith(text, p, whole) && !IsDigit(At(text, p + |whole|))
    ensures if whole == "0" then At(text, p) == '0' && ValueOf(whole) == 0
      else '1' <= At(text, p) <= '9' && ReadDigits(text, p, 0) == (ValueOf(whole), p + |whole|)
  {
    hide ValueOf, ReadDigits, StartsWith, At;
    FirstIs(text, p, whole);
    if whole == "0" {
      ValueOfZero();
    } else {
      NoDigits();
      DigitsRead(text, p, "", whole);
      assert "" + whole == whole;
    }
  }
  // ----- What else the parser takes for a number -----

  // Looser than section 6 of RFC 8259: a zero before other digits, no digits behind "-" or behind "e".
  predicate LooseOk(s: Spelling) {
    && AllDigits(s.whole) && AllDigits(s.fraction) && LooseExponent(s.exponent) && (s.negative || s.whole != "")
    && (s.whole == "" || s.whole[0] != '0' || |s.whole| == 1 || s.whole[1] != '0')
  }

  function LooseNumber(s: Spelling): Json
    requires LooseOk(s)
  {
    var m: int := ValueOf(s.whole + s.fraction);
    Number(if s.negative then 0 - m else m, LoosePower(s.exponent) - |s.fraction|)
  }

  // Where a run of digits ends.
  function RunEnd(text: string, p: nat): (e: nat)
    requires p <= |text|
    ensures p <= e <= |text| && !IsDigit(At(text, e)) && AllDigits(text[p..e])
    decreases |text| - p
  {
    if p < |text| && IsDigit(text[p]) then RunEnd(text, p + 1) else p
  }

  lemma RunIsRead(text: string, p: nat, before: string) returns (d: string)
    requires p <= |text| && AllDigits(before)
    ensures AllDigits(d) && AllDigits(before + d) && StartsWith(text, p, d) && !IsDigit(At(text, p + |d|))
    ensures ReadDigits(text, p, ValueOf(before)) == (ValueOf(before + d), p + |d|)
    ensures d != "" <==> IsDigit(At(text, p))
  {
    hide ReadDigits, ValueOf;
    d := text[p..RunEnd(text, p)];
    DigitsRead(text, p, before, d);
  }

  lemma {:induction false} LeadingZero(d: string, n: nat)
    requires AllDigits(d) && n <= |d|
    ensures AllDigits("0" + d) && Places("0" + d, n + 1) == Places(d, n)
  {
    hide Pow10;
    if n == 0 {
      assert Places("0" + d, 0) == 0;
      assert PlaceValue("0" + d, 0) == 0;
    } else {
      LeadingZero(d, n - 1);
      assert PlaceValue("0" + d, n) == PlaceValue(d, n - 1);
    }
  }

  lemma CharStands(text: string, p: nat, c: char)
    requires At(text, p) == c && c != NUL
    ensures StartsWith(text, p, [c]) && p < |text|
  {
  }

  lemma NothingStands(text: string, p: nat)
    requires p <= |text|
    ensures StartsWith(text, p, "")
  {
  }

  predicate LooseExponent(e: Exponent) {
    e.Exponent? ==>
      && (e.mark == 'e' || e.mark == 'E') && (e.sign == "" || e.sign == "+" || e.sign == "-")
      && AllDigits(e.digits)
  }

  function LoosePower(e: Exponent): int
    requires LooseExponent(e)
  {
    if e.NoExponent? then 0 else if e.sign == "-" then 0 - ValueOf(e.digits) else ValueOf(e.digits)
  }

  lemma SignAccepts(text: string, p: nat) returns (sign: string)
    requires p <= |text|
    ensures StartsWith(text, p, sign) && (sign == "" || sign == "+" || sign == "-")
    ensures (sign == "+" <==> At(text, p) == '+') && (sign == "-" <==> At(text, p) == '-')
  {
    hide At, StartsWith;
    if At(text, p) == '+' {
      CharStands(text, p, '+');
      sign := "+";
    } else if At(text, p) == '-' {
      CharStands(text, p, '-');
      sign := "-";
    } else {
      NothingStands(text, p);
      sign := "";
    }
  }

  lemma StandsInside(text: string, p: nat, s: string)
    requires StartsWith(text, p, s)
    ensures p + |s| <= |text|
  {
  }

  lemma ExponentAccepts(text: string, p: nat) returns (e: Exponent)
    requires p <= |text|
    ensures LooseExponent(e) && StartsWith(text, p, TextOfExponent(e))
    ensures ParseExponent(text, p) == (LoosePower(e), p + |TextOfExponent(e)|)
  {
    hide ValueOf, ReadDigits, At, StartsWith, AllDigits;
    if At(text, p) == 'e' || At(text, p) == 'E' {
      var mark := At(text, p);
      CharStands(text, p, mark);
      var sign := SignAccepts(text, p + 1);
      var q := p + 1 + |sign|;
      StandsInside(text, p + 1, sign);
      NoDigits();
      EmptyDigits();
      var d := RunIsRead(text, q, "");
      assert "" + d == d;
      e := Exponent(mark, sign, d);
      Concat(text, p, [mark], sign);
      Concat(text, p, [mark] + sign, d);
    } else {
      e := NoExponent;
      NothingStands(text, p);
    }
  }

  // The integer part: perhaps a zero, and perhaps digits that do not begin with one.
  lemma WholeAccepts(text: string, p: nat) returns (whole: string)
    requires p <= |text|
    ensures AllDigits(whole) && StartsWith(text, p, whole)
    ensures whole == "" || whole[0] != '0' || |whole| == 1 || whole[1] != '0'
    ensures IsDigit(At(text, p)) ==> whole != ""
    ensures var p2 := if At(text, p) == '0' then p + 1 else p;
      (if '1' <= At(text, p2) <= '9' then ReadDigits(text, p2, 0) else (0, p2)) == (ValueOf(whole), p + |whole|)
  {
    hide ValueOf, ReadDigits, At, StartsWith;
    NoDigits();
    ValueOfZero();
    if At(text, p) == '0' {
      CharStands(text, p, '0');
      var d := "";
      if '1' <= At(text, p + 1) <= '9' {
        d := RunIsRead(text, p + 1, "");
        assert "" + d == d;
        FirstIs(text, p + 1, d);
      } else {
        NothingStands(text, p + 1);
      }
      ValueBehindZero(d);
      Concat(text, p, "0", d);
      whole := "0" + d;
    } else if '1' <= At(text, p) <= '9' {
      whole := RunIsRead(text, p, "");
      assert "" + whole == whole;
      FirstIs(text, p, whole);
    } else {
      NothingStands(text, p);
      whole := "";
    }
  }

  lemma ValueBehindZero(d: string)
    requires AllDigits(d)
    ensures AllDigits("0" + d) && ValueOf("0" + d) == ValueOf(d)
  {
    hide Places;
    LeadingZero(d, |d|);
  }

  lemma FractionAccepts(text: string, p: nat, whole: string) returns (fraction: string)
    requires p <= |text| && AllDigits(whole)
    ensures AllDigits(fraction) && AllDigits(whole + fraction) && StartsWith(text, p, TextOfFraction(fraction))
    ensures fraction != "" <==> At(text, p) == '.' && IsDigit(At(text, p + 1))
    ensures fraction != "" ==>
      ReadDigits(text, p + 1, ValueOf(whole)) == (ValueOf(whole + fraction), p + 1 + |fraction|)
    ensures fraction == "" ==> whole + fraction == whole
  {
    hide ValueOf, ReadDigits, At, StartsWith;
    if At(text, p) == '.' && IsDigit(At(text, p + 1)) {
      CharStands(text, p, '.');
      fraction := RunIsRead(text, p + 1, whole);
      Concat(text, p, ".", fraction);
    } else {
      fraction := "";
      assert whole + "" == whole;
      NothingStands(text, p);
    }
  }

  // Whatever the parser takes for a number has this form and this value.
  lemma NumberAccepts(text: string, p: nat) returns (s: Spelling)
    requires p < |text| && (At(text, p) == '-' || IsDigit(At(text, p)))
    ensures LooseOk(s) && StartsWith(text, p, TextOfNumber(s))
    ensures ParseNumber(text, p) == Ok(LooseNumber(s), p + |TextOfNumber(s)|)
  {
    hide ValueOf, ReadDigits, ParseExponent, TextOfExponent, AllDigits, At, StartsWith, LoosePower, LooseExponent;
    var negative := At(text, p) == '-';
    var sign := if negative then "-" else "";
    if negative { CharStands(text, p, '-'); } else { NothingStands(text, p); }
    var p1 := p + |sign|;
    var whole := WholeAccepts(text, p1);
    var p3 := p1 + |whole|;
    StandsInside(text, p1, whole);
    var fraction := FractionAccepts(text, p3, whole);
    var p4 := p3 + |TextOfFraction(fraction)|;
    StandsInside(text, p3, TextOfFraction(fraction));
    var exponent := ExponentAccepts(text, p4);
    s := Spelling(negative, whole, fraction, exponent);
    Concat(text, p3, TextOfFraction(fraction), TextOfExponent(exponent));
    Concat(text, p1, whole, TextOfFraction(fraction) + TextOfExponent(exponent));
    Concat(text, p, sign, whole + (TextOfFraction(fraction) + TextOfExponent(exponent)));
  }

  lemma EmptyDigits()
    ensures AllDigits("")
  {
  }
}
