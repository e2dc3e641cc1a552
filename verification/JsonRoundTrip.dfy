/** Parsing what was printed gives the value back, and reads exactly the printed text. */
module JsonRoundTrip {
  import opened JsonText

  // ----- Text that stands at a position -----

  lemma Concat(text: string, p: nat, a: string, b: string)
    ensures StartsWith(text, p, a + b) <==> StartsWith(text, p, a) && StartsWith(text, p + |a|, b)
  {
    var n, m := p + |a|, p + |a| + |b|;
    if m <= |text| {
      assert text[p..m] == text[p..n] + text[n..m];
      assert text[p..n] == text[p..m][..|a|] && text[n..m] == text[p..m][|a|..];
      assert (a + b)[..|a|] == a && (a + b)[|a|..] == b;
    }
  }

  lemma FirstIs(text: string, p: nat, s: string)
    requires StartsWith(text, p, s) && |s| > 0
    ensures At(text, p) == s[0] && p < |text|
  {
    assert text[p] == text[p..p + |s|][0];
  }

  predicate IsBlank(c: char) { 0 < c as int <= 32 }

  predicate Blank(s: string) { forall i | 0 <= i < |s| :: IsBlank(s[i]) }

  lemma SkipIs(text: string, p: nat, q: nat)
    requires p <= q && !IsBlank(At(text, q)) && forall i | p <= i < q :: IsBlank(At(text, i))
    ensures Skip(text, p) == q
  {
  }

  // Blanks before something that is none.
  lemma SkipBlank(text: string, p: nat, s: string)
    requires StartsWith(text, p, s) && Blank(s) && !IsBlank(At(text, p + |s|))
    ensures Skip(text, p) == p + |s|
  {
    forall i | p <= i < p + |s| ensures IsBlank(At(text, i)) {
      assert text[i] == text[p..p + |s|][i - p];
    }
    SkipIs(text, p, p + |s|);
  }

  lemma {:induction false} TabsBlank(n: nat)
    ensures Blank(Tabs(n))
  {
    if n > 0 { TabsBlank(n - 1); }
  }

  // ----- Strings -----

  // One printed character is read back as itself.
  lemma EscapeTrip(text: string, p: nat, c: char)
    requires 0 < c as int < 256 && StartsWith(text, p, Escaped(c)) && |Escaped(c)| > 1
    ensures At(text, p) == '\\' && ParseEscape(text, p + 1) == ([c], p + |Escaped(c)|)
  {
    var e := Escaped(c);
    forall i | 0 <= i < |e| ensures At(text, p + i) == e[i] {
      assert text[p + i] == text[p..p + |e|][i];
    }
    if !NamedEscape(c) {
      HexTrip(c as int / 16);
      HexTrip(c as int % 16);
      assert At(text, p + 1) == 'u' && At(text, p + 2) == '0' && At(text, p + 3) == '0';
      assert At(text, p + 4) == HexDigit(c as int / 16) && At(text, p + 5) == HexDigit(c as int % 16);
      assert Hex4(text, p + 2) == c as int;
    } else {
      assert At(text, p + 1) == EscapeLetter(c);
    }
  }

  lemma HexTrip(d: nat)
    requires d < 16
    ensures HexValue(HexDigit(d)) == d
  {
  }

  lemma PlainIs(c: char)
    requires |Escaped(c)| == 1
    ensures Escaped(c) == [c] && c != '\"' && c != '\\' && c as int > 31
  {
  }

  // How the characters of a string are read.
  lemma PlainStep(text: string, p: nat)
    requires At(text, p) != '\"' && At(text, p) != NUL && At(text, p) != '\\'
    ensures ParseChars(text, p) == ([At(text, p)] + ParseChars(text, p + 1).0, ParseChars(text, p + 1).1)
    ensures Left(text, p + 1) < Left(text, p)
  {
  }

  lemma EscapeStep(text: string, p: nat)
    requires At(text, p) == '\\'
    ensures var (e, q) := ParseEscape(text, p + 1);
      ParseChars(text, p) == (e + ParseChars(text, q).0, ParseChars(text, q).1) && Left(text, q) < Left(text, p)
  {
    hide ParseEscape;
  }

  lemma CharsEnd(text: string, p: nat)
    requires At(text, p) == '\"' || At(text, p) == NUL
    ensures ParseChars(text, p) == ([], p)
  {
  }

  lemma {:induction false} CharsTrip(s: string, text: string, p: nat)
    requires PrintableText(s) && StartsWith(text, p, EscapedAll(s) + ['\"'])
    ensures ParseChars(text, p) == (s, p + |EscapedAll(s)|)
  {
    hide ParseEscape, Escaped, ParseChars, At, StartsWith;
    Concat(text, p, EscapedAll(s), ['\"']);
    if s == [] {
      FirstIs(text, p, ['\"']);
      CharsEnd(text, p);
    } else {
      var e, rest := Escaped(s[0]), EscapedAll(s[1..]);
      assert EscapedAll(s) + ['\"'] == e + (rest + ['\"']);
      Concat(text, p, e, rest + ['\"']);
      CharsTrip(s[1..], text, p + |e|);
      FirstIs(text, p, e);
      assert s == [s[0]] + s[1..];
      if |e| == 1 {
        PlainIs(s[0]);
        PlainStep(text, p);
      } else {
        EscapeTrip(text, p, s[0]);
        EscapeStep(text, p);
      }
    }
  }

  lemma StringTrip(s: string, text: string, p: nat)
    requires PrintableText(s) && StartsWith(text, p, Quoted(s))
    ensures At(text, p) == '\"' && ParseString(text, p) == Ok(s, p + |Quoted(s)|)
  {
    hide ParseChars, EscapedAll;
    var body := EscapedAll(s) + ['\"'];
    assert Quoted(s) == ['\"'] + body;
    Concat(text, p, ['\"'], body);
    FirstIs(text, p, ['\"']);
    CharsTrip(s, text, p + 1);
    Concat(text, p + 1, EscapedAll(s), ['\"']);
    FirstIs(text, p + 1 + |EscapedAll(s)|, ['\"']);
  }

  // ----- Numbers -----

  // What comes after a number must not look like more of it.
  predicate EndsNumber(c: char) {
    !IsDigit(c) && c != '.' && c != 'e' && c != 'E'
  }

  lemma {:induction false} DigitsTrip(n: nat, text: string, p: nat)
    requires StartsWith(text, p, Digits(n))
    ensures ReadDigits(text, p, 0) == ReadDigits(text, p + |Digits(n)|, n)
  {
    if n < 10 {
      FirstIs(text, p, Digits(n));
      assert ReadDigits(text, p, 0) == ReadDigits(text, p + 1, n);
    } else {
      var d := [('0' as int + n % 10) as char];
      var q := p + |Digits(n / 10)|;
      Concat(text, p, Digits(n / 10), d);
      DigitsTrip(n / 10, text, p);
      FirstIs(text, q, d);
      assert ReadDigits(text, q, n / 10) == ReadDigits(text, q + 1, n / 10 * 10 + n % 10);
    }
  }

  lemma {:induction false} FirstDigit(n: nat)
    ensures IsDigit(Digits(n)[0]) && (n > 0 ==> Digits(n)[0] != '0') && (n == 0 ==> Digits(n) == "0")
  {
    if n >= 10 { FirstDigit(n / 10); }
  }

  lemma NumberTrip(n: int, text: string, p: nat)
    requires StartsWith(text, p, Decimal(n)) && EndsNumber(At(text, p + |Decimal(n)|))
    ensures At(text, p) == '-' || IsDigit(At(text, p))
    ensures ParseNumber(text, p) == Ok(Number(n, 0), p + |Decimal(n)|)
  {
    hide ReadDigits, Digits, ParseExponent, At, StartsWith;
    var m, p1 := if n < 0 then -n else n, if n < 0 then p + 1 else p;
    if n < 0 { Concat(text, p, ['-'], Digits(m)); FirstIs(text, p, ['-']); }
    FirstDigit(m);
    FirstIs(text, p1, Digits(m));
    DigitsTrip(m, text, p1);
    var q := p1 + |Digits(m)|;
    StopsAt(text, q, m);
    NoExponent(text, q);
    if m == 0 { StopsAt(text, p1 + 1, 0); }
  }

  lemma NoExponent(text: string, p: nat)
    requires EndsNumber(At(text, p))
    ensures ParseExponent(text, p) == (0, p)
  {
  }

  lemma StopsAt(text: string, p: nat, n: nat)
    requires !IsDigit(At(text, p))
    ensures ReadDigits(text, p, n) == (n, p)
  {
  }

  // ----- Values -----

  // The first character of a printed value tells the parser what comes.
  predicate Opens(v: Json, c: char) {
    match v
    case Null => c == 'n'
    case False => c == 'f'
    case True => c == 't'
    case Number(_, _) => c == '-' || IsDigit(c)
    case String(_) => c == '\"'
    case Array(_) => c == '['
    case Object(_) => c == '{'
  }

  lemma PrintOpens(v: Json, depth: nat, fmt: bool)
    requires Printable(v)
    ensures |Print(v, depth, fmt)| > 0 && Opens(v, Print(v, depth, fmt)[0])
  {
    if v.Number? && v.mantissa >= 0 { FirstDigit(v.mantissa); }
  }

  lemma WordStart(text: string, p: nat, word: string)
    requires |word| > 0 && At(text, p) != word[0]
    ensures !StartsWith(text, p, word)
  {
    if StartsWith(text, p, word) { FirstIs(text, p, word); }
  }

  // Past the three words, the first character decides.
  lemma NoWord(text: string, p: nat)
    requires At(text, p) != 'n' && At(text, p) != 'f' && At(text, p) != 't'
    ensures !StartsWith(text, p, "null") && !StartsWith(text, p, "false") && !StartsWith(text, p, "true")
  {
    WordStart(text, p, "null");
    WordStart(text, p, "false");
    WordStart(text, p, "true");
  }

  // The printed value is followed by something that is not part of it, and is read back.
  ghost predicate Trips(v: Json, text: string, p: nat, s: string) {
    StartsWith(text, p, s) && EndsNumber(At(text, p + |s|)) ==> ParseValue(text, p) == Ok(v, p + |s|)
  }

  lemma LeafTrip(v: Json, text: string, p: nat, depth: nat, fmt: bool)
    requires Printable(v) && !v.Array? && !v.Object?
    ensures Trips(v, text, p, Print(v, depth, fmt))
  {
    hide ParseNumber, ParseString, Skip;
    var s := Print(v, depth, fmt);
    if StartsWith(text, p, s) && EndsNumber(At(text, p + |s|)) {
      PrintOpens(v, depth, fmt);
      FirstIs(text, p, s);
      match v
      case Null =>
      case False => WordStart(text, p, "null");
      case True => WordStart(text, p, "null"); WordStart(text, p, "false");
      case Number(n, e) => NoWord(text, p); NumberTrip(n, text, p);
      case String(t) => NoWord(text, p); StringTrip(t, text, p);
    }
  }

  // Blanks, a value, and what is left.
  lemma ValueThen(v: Json, text: string, p: nat, lead: string, s: string, tail: string)
    requires StartsWith(text, p, lead + (s + tail)) && Blank(lead) && |tail| > 0 && EndsNumber(tail[0])
    requires |s| > 0 && Opens(v, s[0]) && Trips(v, text, p + |lead|, s)
    ensures Skip(text, p) == p + |lead|
    ensures ParseValue(text, p + |lead|) == Ok(v, p + |lead| + |s|)
    ensures StartsWith(text, p + |lead| + |s|, tail) && At(text, p + |lead| + |s|) == tail[0]
  {
    hide ParseValue, Skip, StartsWith, At;
    var q := p + |lead|;
    Concat(text, p, lead, s + tail);
    Concat(text, q, s, tail);
    FirstIs(text, q, s);
    FirstIs(text, q + |s|, tail);
    SkipBlank(text, p, lead);
  }

  lemma MoreItems(text: string, p: nat, v: Json, q: nat, rest: seq<Json>, end: nat)
    requires ParseValue(text, Skip(text, p)) == Ok(v, q) && Skip(text, q) == q && At(text, q) == ','
    requires ParseItems(text, q + 1) == Ok(rest, end)
    ensures ParseItems(text, p) == Ok([v] + rest, end)
  {
    hide ParseValue, Skip, At;
  }

  lemma LastItem(text: string, p: nat, v: Json, q: nat)
    requires ParseValue(text, Skip(text, p)) == Ok(v, q) && Skip(text, q) == q && At(text, q) == ']'
    ensures ParseItems(text, p) == Ok([v], q + 1)
  {
    hide ParseValue, Skip, At;
  }

  lemma ItemsText(items: seq<Json>, depth: nat, fmt: bool)
    requires |items| > 1
    ensures var s, after := Print(items[0], depth, fmt), If(fmt, " ") + (PrintItems(items[1..], depth, fmt) + "]");
      && PrintItems(items, depth, fmt) + "]" == s + ("," + after)
      && |PrintItems(items, depth, fmt)| == |s| + |after|
  {
    hide Print;
    var s, gap, rest := Print(items[0], depth, fmt), If(fmt, " "), PrintItems(items[1..], depth, fmt);
    assert (s + ("," + (gap + rest))) + "]" == s + ("," + (gap + (rest + "]")));
  }

  lemma ItemsTrip(items: seq<Json>, text: string, p: nat, lead: string, depth: nat, fmt: bool)
    requires items != [] && forall i | 0 <= i < |items| :: Printable(items[i])
    requires Blank(lead) && StartsWith(text, p, lead + (PrintItems(items, depth, fmt) + "]"))
    ensures ParseItems(text, p) == Ok(items, p + |lead| + |PrintItems(items, depth, fmt)| + 1)
    decreases items, 0
  {
    hide ParseValue, Skip, Print, Printable, StartsWith, At, Opens, Trips, ParseItems, PrintItems;
    var v, s := items[0], Print(items[0], depth, fmt);
    PrintOpens(v, depth, fmt);
    var q := p + |lead| + |s|;
    ValueTrip(v, text, p + |lead|, depth, fmt);
    if |items| == 1 {
      assert PrintItems(items, depth, fmt) == s by { OneItem(items, depth, fmt); }
      ValueThen(v, text, p, lead, s, "]");
      SkipIs(text, q, q);
      LastItem(text, p, v, q);
      assert items == [v];
    } else {
      var gap, rest := If(fmt, " "), items[1..];
      var after := gap + (PrintItems(rest, depth, fmt) + "]");
      ItemsText(items, depth, fmt);
      ValueThen(v, text, p, lead, s, "," + after);
      SkipIs(text, q, q);
      Concat(text, q, ",", after);
      ItemsTrip(rest, text, q + 1, gap, depth, fmt);
      MoreItems(text, p, v, q, rest, q + 1 + |after|);
      assert items == [v] + rest;
    }
  }

  lemma OneItem(items: seq<Json>, depth: nat, fmt: bool)
    requires |items| == 1
    ensures PrintItems(items, depth, fmt) == Print(items[0], depth, fmt)
  {
  }

  lemma ValueTrip(v: Json, text: string, p: nat, depth: nat, fmt: bool)
    requires Printable(v)
    ensures Trips(v, text, p, Print(v, depth, fmt))
    decreases v, 1
  {
    hide ParseValue, Printable;
    if v.Array? {
      ArrayTrip(v, text, p, depth, fmt);
    } else if v.Object? {
      ObjectTrip(v, text, p, depth, fmt);
    } else {
      LeafTrip(v, text, p, depth, fmt);
    }
  }

  lemma MemberIs(text: string, p: nat, name: string, q: nat, v: Json, end: nat)
    requires ParseString(text, Skip(text, p)) == Ok(name, q) && Skip(text, q) == q && At(text, q) == ':'
    requires ParseValue(text, Skip(text, q + 1)) == Ok(v, end)
    ensures ParseMember(text, p) == Ok(Member(name, v), end)
  {
    hide ParseValue, Skip, At, ParseString;
  }

  lemma MemberText(m: Member, depth: nat, fmt: bool, tail: string)
    ensures PrintMember(m, depth, fmt) + tail ==
      Quoted(m.name) + (":" + (If(fmt, "\t") + (Print(m.value, depth, fmt) + tail)))
    ensures |PrintMember(m, depth, fmt)| == |Quoted(m.name)| + 1 + |If(fmt, "\t")| + |Print(m.value, depth, fmt)|
  {
    hide Print, Quoted;
    var a, t, s := Quoted(m.name), If(fmt, "\t"), Print(m.value, depth, fmt);
    assert (a + (":" + t) + s) + tail == a + (":" + (t + (s + tail)));
  }

  // A name, a colon and a value, and what is left.
  lemma MemberTrip(m: Member, text: string, p: nat, depth: nat, fmt: bool, tail: string)
    requires PrintableText(m.name) && Printable(m.value)
    requires StartsWith(text, Skip(text, p), PrintMember(m, depth, fmt) + tail) && |tail| > 0 && EndsNumber(tail[0])
    ensures var end := Skip(text, p) + |PrintMember(m, depth, fmt)|;
      ParseMember(text, p) == Ok(m, end) && StartsWith(text, end, tail) && At(text, end) == tail[0]
    decreases m, 0
  {
    hide ParseValue, Skip, Print, Printable, StartsWith, At, Opens, Trips, ParseMember, PrintMember, ParseString,
         Quoted;
    var q, name, gap, s := Skip(text, p), Quoted(m.name), If(fmt, "\t"), Print(m.value, depth, fmt);
    var value := gap + (s + tail);
    MemberText(m, depth, fmt, tail);
    Concat(text, q, name, ":" + value);
    StringTrip(m.name, text, q);
    var c := q + |name|;
    Concat(text, c, ":", value);
    FirstIs(text, c, ":");
    SkipIs(text, c, c);
    PrintOpens(m.value, depth, fmt);
    ValueTrip(m.value, text, c + 1 + |gap|, depth, fmt);
    ValueThen(m.value, text, c + 1, gap, s, tail);
    MemberIs(text, p, m.name, c, m.value, c + 1 + |gap| + |s|);
  }

  lemma MoreMembers(text: string, p: nat, m: Member, q: nat, rest: seq<Member>, end: nat)
    requires ParseMember(text, p) == Ok(m, q) && Skip(text, q) == q && At(text, q) == ','
    requires ParseMembers(text, q + 1) == Ok(rest, end)
    ensures ParseMembers(text, p) == Ok([m] + rest, end)
  {
    hide ParseMember, Skip, At;
  }

  lemma LastMember(text: string, p: nat, m: Member, q: nat, end: nat)
    requires ParseMember(text, p) == Ok(m, q) && Skip(text, q) == end && At(text, end) == '}'
    ensures ParseMembers(text, p) == Ok([m], end + 1)
  {
    hide ParseMember, Skip, At;
  }

  // The text of the members, cut after the first one.
  lemma MembersText(members: seq<Member>, depth: nat, fmt: bool, lead: string, close: string)
    requires members != []
    ensures var lead2, more := lead + If(fmt, Tabs(depth)), |members| > 1;
      var after := If(fmt, "\n") + (PrintMembers(members[1..], depth, fmt) + (close + "}"));
      && lead + (PrintMembers(members, depth, fmt) + (close + "}")) ==
         lead2 + (PrintMember(members[0], depth, fmt) + (If(more, ",") + after))
      && |lead| + |PrintMembers(members, depth, fmt)| + |close| + 1 ==
         |lead2| + |PrintMember(members[0], depth, fmt)| + |If(more, ",")| + |after|
  {
    hide PrintMember, Tabs;
    var tabs, m, comma, nl := If(fmt, Tabs(depth)), PrintMember(members[0], depth, fmt), If(|members| > 1, ","),
      If(fmt, "\n");
    var rest := PrintMembers(members[1..], depth, fmt);
    assert PrintMembers(members, depth, fmt) == tabs + (m + (comma + (nl + rest)));
    Regroup(lead, tabs, m, comma, nl, rest, close + "}");
  }

  lemma Regroup(lead: string, tabs: string, m: string, comma: string, nl: string, rest: string, end: string)
    ensures lead + ((tabs + (m + (comma + (nl + rest)))) + end) == (lead + tabs) + (m + (comma + (nl + (rest + end))))
  {
  }

  lemma NoMembers(depth: nat, fmt: bool, close: string)
    ensures PrintMembers([], depth, fmt) + (close + "}") == close + "}"
    ensures If(fmt, "\n") + (close + "}") == (If(fmt, "\n") + close) + "}"
  {
  }

  // The first member, up to the comma or the blanks after it.
  lemma HeadTrip(members: seq<Member>, text: string, p: nat, lead: string, close: string, depth: nat, fmt: bool)
    requires members != [] && PrintableText(members[0].name) && Printable(members[0].value)
    requires Blank(lead) && Blank(close)
      && StartsWith(text, p, lead + (PrintMembers(members, depth, fmt) + (close + "}")))
    ensures var after := If(fmt, "\n") + (PrintMembers(members[1..], depth, fmt) + (close + "}"));
      var tail := If(|members| > 1, ",") + after;
      var end := p + |lead| + |PrintMembers(members, depth, fmt)| + |close| + 1;
      && |tail| <= end
      && ParseMember(text, p) == Ok(members[0], end - |tail|)
      && StartsWith(text, end - |tail|, tail)
    decreases members, 0
  {
    hide Skip, Print, Printable, PrintableText, StartsWith, At, ParseMember, PrintMember, PrintMembers, Tabs;
    var m, body := members[0], PrintMember(members[0], depth, fmt);
    var lead2 := lead + If(fmt, Tabs(depth));
    var tail := If(|members| > 1, ",") + (If(fmt, "\n") + (PrintMembers(members[1..], depth, fmt) + (close + "}")));
    MembersText(members, depth, fmt, lead, close);
    TabsBlank(depth);
    TailEnds(members[1..], depth, fmt, close);
    SkipToName(m, text, p, lead2, depth, fmt, tail);
    Concat(text, p, lead2, body + tail);
    MemberTrip(m, text, p, depth, fmt, tail);
  }

  lemma MembersTrip(members: seq<Member>, text: string, p: nat, lead: string, close: string, depth: nat, fmt: bool)
    requires members != [] && forall i | 0 <= i < |members| ::
      PrintableText(members[i].name) && Printable(members[i].value)
    requires Blank(lead) && Blank(close)
      && StartsWith(text, p, lead + (PrintMembers(members, depth, fmt) + (close + "}")))
    ensures ParseMembers(text, p) == Ok(members, p + |lead| + |PrintMembers(members, depth, fmt)| + |close| + 1)
    decreases members, 1
  {
    hide Skip, Printable, PrintableText, StartsWith, At, ParseMember, ParseMembers, PrintMembers;
    var m, rest, nl := members[0], members[1..], If(fmt, "\n");
    var after := nl + (PrintMembers(rest, depth, fmt) + (close + "}"));
    var end := p + |lead| + |PrintMembers(members, depth, fmt)| + |close| + 1;
    HeadTrip(members, text, p, lead, close, depth, fmt);
    if rest == [] {
      var q := end - |after|;
      NoMembers(depth, fmt, close);
      assert [] + after == after == (nl + close) + "}";
      Concat(text, q, nl + close, "}");
      FirstIs(text, q + |nl + close|, "}");
      SkipBlank(text, q, nl + close);
      LastMember(text, p, m, q, q + |nl + close|);
      assert members == [m];
    } else {
      var q := end - |after| - 1;
      Concat(text, q, ",", after);
      FirstIs(text, q, ",");
      SkipIs(text, q, q);
      MembersTrip(rest, text, q + 1, nl, close, depth, fmt);
      MoreMembers(text, p, m, q, rest, end);
      assert members == [m] + rest;
    }
  }

  // Nothing after a member can be taken for a part of a number.
  lemma TailEnds(rest: seq<Member>, depth: nat, fmt: bool, close: string)
    requires Blank(close)
    ensures var tail := If(|rest| > 0, ",") + (If(fmt, "\n") + (PrintMembers(rest, depth, fmt) + (close + "}")));
      |tail| > 0 && EndsNumber(tail[0])
  {
    hide PrintMember, Tabs;
  }

  lemma SkipToName(m: Member, text: string, p: nat, lead: string, depth: nat, fmt: bool, tail: string)
    requires Blank(lead) && StartsWith(text, p, lead + (PrintMember(m, depth, fmt) + tail))
    ensures Skip(text, p) == p + |lead|
  {
    hide Skip, StartsWith, At, Print, EscapedAll;
    var body := PrintMember(m, depth, fmt) + tail;
    Concat(text, p, lead, body);
    FirstIs(text, p + |lead|, body);
    SkipBlank(text, p, lead);
  }

  lemma SkipAgain(text: string, p: nat)
    ensures Skip(text, Skip(text, p)) == Skip(text, p)
  {
    SkipIs(text, Skip(text, p), Skip(text, p));
  }

  // What is parsed after blanks depends only on where the blanks end.
  lemma ItemsBySkip(text: string, p: nat, q: nat)
    requires Skip(text, p) == Skip(text, q)
    ensures ParseItems(text, p) == ParseItems(text, q)
  {
    hide Skip, ParseValue, At;
  }

  lemma MemberBySkip(text: string, p: nat, q: nat)
    requires Skip(text, p) == Skip(text, q)
    ensures ParseMember(text, p) == ParseMember(text, q)
  {
    hide Skip, ParseValue, ParseString, At;
  }

  lemma MembersBySkip(text: string, p: nat, q: nat)
    requires ParseMember(text, p) == ParseMember(text, q)
    ensures ParseMembers(text, p) == ParseMembers(text, q)
  {
    hide Skip, ParseMember, At;
  }

  lemma SkipTwice(text: string, p: nat)
    ensures Skip(text, Skip(text, p)) == Skip(text, p)
    ensures ParseItems(text, Skip(text, p)) == ParseItems(text, p)
    ensures ParseMembers(text, Skip(text, p)) == ParseMembers(text, p)
  {
    hide Skip, ParseItems, ParseMember, ParseMembers;
    SkipAgain(text, p);
    ItemsBySkip(text, Skip(text, p), p);
    MemberBySkip(text, Skip(text, p), p);
    MembersBySkip(text, Skip(text, p), p);
  }

  lemma EmptyObjectTrip(v: Json, text: string, p: nat, depth: nat, fmt: bool)
    requires v == Object([])
    ensures Trips(v, text, p, Print(v, depth, fmt))
  {
    hide ParseMembers, Skip, StartsWith, At, Tabs;
    var s := Print(v, depth, fmt);
    if StartsWith(text, p, s) && EndsNumber(At(text, p + |s|)) {
      var gap := If(fmt, "\n" + Tabs(if depth > 0 then depth - 1 else 0));
      TabsBlank(if depth > 0 then depth - 1 else 0);
      assert s == "{" + (gap + "}");
      Concat(text, p, "{", gap + "}");
      FirstIs(text, p, "{");
      NoWord(text, p);
      Concat(text, p + 1, gap, "}");
      FirstIs(text, p + 1 + |gap|, "}");
      SkipBlank(text, p + 1, gap);
    }
  }

  lemma ObjectTrip(v: Json, text: string, p: nat, depth: nat, fmt: bool)
    requires Printable(v) && v.Object?
    ensures Trips(v, text, p, Print(v, depth, fmt))
    decreases v, 0
  {
    hide ParseMembers, Skip, StartsWith, At, Tabs, PrintMembers;
    if v.members == [] {
      EmptyObjectTrip(v, text, p, depth, fmt);
      return;
    }
    var s := Print(v, depth, fmt);
    if StartsWith(text, p, s) && EndsNumber(At(text, p + |s|)) {
      var nl, close := If(fmt, "\n"), If(fmt, Tabs(depth));
      var body := nl + (PrintMembers(v.members, depth + 1, fmt) + (close + "}"));
      TabsBlank(depth);
      Concat(text, p, "{", body);
      FirstIs(text, p, "{");
      NoWord(text, p);
      MembersTrip(v.members, text, p + 1, nl, close, depth + 1, fmt);
      SkipTwice(text, p + 1);
      FirstName(v.members, text, p + 1, nl, close, depth + 1, fmt);
    }
  }

  // The parser does not take a member for the end of the object.
  lemma FirstName(members: seq<Member>, text: string, p: nat, lead: string, close: string, depth: nat, fmt: bool)
    requires members != [] && Blank(lead)
      && StartsWith(text, p, lead + (PrintMembers(members, depth, fmt) + (close + "}")))
    ensures At(text, Skip(text, p)) == '\"'
  {
    hide Skip, StartsWith, At, PrintMembers, Tabs, Print, EscapedAll;
    TabsBlank(depth);
    MembersText(members, depth, fmt, lead, close);
    var lead2, more := lead + If(fmt, Tabs(depth)), |members| > 1;
    var after := If(fmt, "\n") + (PrintMembers(members[1..], depth, fmt) + (close + "}"));
    var body := PrintMember(members[0], depth, fmt) + (If(more, ",") + after);
    SkipToName(members[0], text, p, lead2, depth, fmt, If(more, ",") + after);
    Concat(text, p, lead2, body);
    FirstIs(text, p + |lead2|, body);
  }

  lemma ArrayTrip(v: Json, text: string, p: nat, depth: nat, fmt: bool)
    requires Printable(v) && v.Array?
    ensures Trips(v, text, p, Print(v, depth, fmt))
    decreases v, 0
  {
    hide ParseItems, Skip, PrintItems, StartsWith, At;
    var s, items := Print(v, depth, fmt), v.items;
    if StartsWith(text, p, s) && EndsNumber(At(text, p + |s|)) {
      var body := if items == [] then "]" else PrintItems(items, depth + 1, fmt) + "]";
      assert s == "[" + body;
      Concat(text, p, "[", body);
      FirstIs(text, p, "[");
      NoWord(text, p);
      FirstIs(text, p + 1, body);
      if items != [] {
        ItemsOpen(items, depth + 1, fmt);
      }
      SkipIs(text, p + 1, p + 1);
      if items != [] {
        assert [] + body == body;
        ItemsTrip(items, text, p + 1, [], depth + 1, fmt);
      }
    }
  }

  lemma ItemsOpen(items: seq<Json>, depth: nat, fmt: bool)
    requires items != [] && forall i | 0 <= i < |items| :: Printable(items[i])
    ensures var s := PrintItems(items, depth, fmt); |s| > 0 && Opens(items[0], s[0])
  {
    hide Print;
    PrintOpens(items[0], depth, fmt);
  }

  // The round trip: parsing a printed value, with or without formatting and with blanks around it,
  // rebuilds the value and consumes exactly its text.
  lemma RoundTrip(v: Json, fmt: bool)
    requires Printable(v)
    ensures var s := Print(v, 0, fmt);
      && ParseValue(s, Skip(s, 0)) == Ok(v, |s|)
      && Skip(s, |s|) == |s|
  {
    hide ParseValue, Print, Printable;
    var s := Print(v, 0, fmt);
    PrintOpens(v, 0, fmt);
    assert StartsWith(s, 0, s) by { assert s[0..|s|] == s; }
    FirstIs(s, 0, s);
    SkipIs(s, 0, 0);
    SkipIs(s, |s|, |s|);
    ValueTrip(v, s, 0, 0, fmt);
  }

  // ----- The layout -----

  lemma ItemsUnfold(items: seq<Json>, depth: nat, fmt: bool)
    requires items != []
    ensures PrintItems(items, depth, fmt) == Print(items[0], depth, fmt) +
      if |items| == 1 then "" else "," + (If(fmt, " ") + PrintItems(items[1..], depth, fmt))
  {
    hide Print;
  }

  lemma MembersUnfold(members: seq<Member>, depth: nat, fmt: bool)
    requires members != []
    ensures PrintMembers(members, depth, fmt) ==
      If(fmt, Tabs(depth)) + (Quoted(members[0].name) + (":" + If(fmt, "\t")) + Print(members[0].value, depth, fmt) +
        (If(|members| > 1, ",") + (If(fmt, "\n") + PrintMembers(members[1..], depth, fmt))))
  {
    hide Print, Quoted, Tabs;
  }

  lemma QuotedLetter()
    ensures Quoted("a") == "\"a\"" && Tabs(1) == "\t" && Tabs(2) == "\t\t"
  {
    assert "a"[1..] == "";
    assert EscapedAll("") == "" && EscapedAll("a") == "a";
    assert Tabs(0) == "";
    assert Tabs(1) == "\t";
  }

  // The items of an array on one line, and the closing brace of an empty object on a line of its own.
  lemma ArrayLayout()
    ensures Print(Array([Object([]), Null]), 1, true) == "[{\n\t}, null]"
    ensures Print(Array([Object([]), Null]), 1, false) == "[{},null]"
  {
    hide PrintItems, Quoted, Tabs;
    var items := [Object([]), Null];
    assert items[1..] == [Null];
    ItemsUnfold(items, 2, true);
    ItemsUnfold(items, 2, false);
    OneItem([Null], 2, true);
    OneItem([Null], 2, false);
    QuotedLetter();
  }

  // A member on a line of its own, behind a tab for every level, and a tab behind the colon.
  lemma ObjectLayout()
    ensures Print(Object([Member("a", True)]), 1, true) == "{\n\t\t\"a\":\ttrue\n\t}"
  {
    hide Print, Quoted, Tabs, PrintMembers;
    ObjectText([Member("a", True)], 1, true);
    MemberLayout(true);
    QuotedLetter();
    Join("{", "\n", "\t\t\"a\":\ttrue\n", "\t", "}");
  }

  lemma BareObjectLayout()
    ensures Print(Object([Member("a", True)]), 1, false) == "{\"a\":true}"
  {
    hide Print, Quoted, Tabs, PrintMembers;
    ObjectText([Member("a", True)], 1, false);
    MemberLayout(false);
  }

  lemma Join(a: string, b: string, c: string, d: string, e: string)
    ensures a + (b + (c + (d + e))) == a + b + c + d + e
  {
  }

  lemma ObjectText(members: seq<Member>, depth: nat, fmt: bool)
    requires members != []
    ensures Print(Object(members), depth, fmt) ==
      "{" + (If(fmt, "\n") + (PrintMembers(members, depth + 1, fmt) + (If(fmt, Tabs(depth)) + "}")))
  {
    hide PrintMembers, Tabs;
  }

  lemma MemberLayout(fmt: bool)
    ensures PrintMembers([Member("a", True)], 2, fmt) == if fmt then "\t\t\"a\":\ttrue\n" else "\"a\":true"
  {
    hide PrintMembers, Quoted, Tabs;
    var members := [Member("a", True)];
    assert members[1..] == [];
    MembersUnfold(members, 2, fmt);
    EmptyText(2, fmt);
    QuotedLetter();
  }

  lemma EmptyText(depth: nat, fmt: bool)
    ensures PrintMembers([], depth, fmt) == ""
  {
  }
}
