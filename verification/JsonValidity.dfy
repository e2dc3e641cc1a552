/**
 The printed text of a value is a text that the grammar of RFC 8259 derives, without any liberties: no
 control character inside a string, only spaces, tabs and line ends as blanks, and the derivation means
 the value.
*/
module JsonValidity {
  import opened JsonText
  import opened JsonRoundTrip
  import opened JsonNumbers
  import opened JsonStrings
  import opened JsonDocuments

  predicate StrictBlank(s: string) {
    forall i | 0 <= i < |s| :: s[i] in " \t\n\r"
  }

  predicate StrictPiece(piece: Piece) {
    PieceOk(piece) && (piece.Plain? ==> piece.c as int >= 0x20)
  }

  predicate StrictPieces(pieces: seq<Piece>) {
    forall i | 0 <= i < |pieces| :: StrictPiece(pieces[i])
  }

  predicate Strict(d: Doc)
    decreases d, 0
  {
    match d
    case Word(v) => v.Null? || v.False? || v.True?
    case Numeral(s) => SpellingOk(s)
    case Text(pieces) => StrictPieces(pieces)
    case List(blank, items) => StrictBlank(blank) && StrictItems(items)
    case Record(blank, fields) => StrictBlank(blank) && StrictFields(fields)
  }

  predicate StrictItems(items: seq<Item>)
    decreases items, 1
  {
    items == [] || (
      && StrictBlank(items[0].before) && StrictBlank(items[0].after) && Strict(items[0].doc)
      && StrictItems(items[1..]))
  }

  predicate StrictFields(fields: seq<Field>)
    decreases fields, 1
  {
    fields == [] || (
      && StrictBlank(fields[0].before) && StrictPieces(fields[0].name) && StrictBlank(fields[0].colon)
      && StrictBlank(fields[0].item.before) && StrictBlank(fields[0].item.after) && Strict(fields[0].item.doc)
      && StrictFields(fields[1..]))
  }

  // ----- Strings -----

  // The piece that a character is printed as.
  lemma EscapedIsPiece(c: char) returns (piece: Piece)
    requires 0 < c as int < 256
    ensures StrictPiece(piece) && TextOf(piece) == Escaped(c) && Meaning(piece) == [c]
  {
    hide Spells, HexDigit, Utf8;
    if c as int > 31 && c != '\"' && c != '\\' {
      piece := Plain(c);
    } else if NamedEscape(c) {
      piece := Letter(EscapeLetter(c));
    } else {
      var digits := ['0', '0', HexDigit(c as int / 16), HexDigit(c as int % 16)];
      piece := Unit(c as int, digits);
      ControlSpells(c as int);
    }
  }

  lemma ControlSpells(n: nat)
    requires n < 32
    ensures Spells(['0', '0', HexDigit(n / 16), HexDigit(n % 16)], n) && Utf8(n) == [n as char]
  {
    hide IsHex, HexDigit;
    HexIsHex(n / 16);
    HexIsHex(n % 16);
  }

  lemma HexIsHex(d: nat)
    requires d < 16
    ensures IsHex(HexDigit(d), d) && IsHex('0', 0)
  {
  }

  lemma {:induction false} EscapedArePieces(s: string) returns (pieces: seq<Piece>)
    requires PrintableText(s)
    ensures StrictPieces(pieces) && PiecesOk(pieces) && TextOfAll(pieces) == EscapedAll(s) && MeaningOfAll(pieces) == s
  {
    hide Escaped, PieceOk, TextOf, Meaning;
    if s == [] {
      pieces := [];
    } else {
      var first := EscapedIsPiece(s[0]);
      var rest := EscapedArePieces(s[1..]);
      pieces := [first] + rest;
      assert pieces[1..] == rest;
      assert s == [s[0]] + s[1..];
    }
  }

  // ----- Numbers -----

  lemma {:induction false} DigitsAreDigits(n: nat)
    ensures AllDigits(Digits(n)) && ValueOf(Digits(n)) == n
    ensures Digits(n) == "0" || Digits(n)[0] != '0'
  {
    hide ValueOf;
    if n < 10 {
      OneDigit(n);
    } else {
      DigitsAreDigits(n / 10);
      assert Digits(n / 10) != "0" by { NotZero(n / 10); }
      ValueAppend(Digits(n / 10), ('0' as int + n % 10) as char);
    }
  }

  lemma NotZero(n: nat)
    requires n > 0
    ensures Digits(n) != "0"
  {
    if n >= 10 { assert |Digits(n / 10)| >= 1; }
  }

  lemma OneDigit(n: nat)
    requires n < 10
    ensures AllDigits(Digits(n)) && ValueOf(Digits(n)) == n && (Digits(n) == "0" || Digits(n)[0] != '0')
  {
    var d := Digits(n);
    assert Places(d, 0) == 0;
    assert Pow10(0) == 1;
    assert Places(d, 1) == PlaceValue(d, 0);
  }

  lemma DecimalIsNumber(n: int) returns (s: Spelling)
    ensures SpellingOk(s) && TextOfNumber(s) == Decimal(n) && NumberOf(s) == Number(n, 0)
  {
    hide ValueOf, Digits;
    var m: nat := if n < 0 then -n else n;
    DigitsAreDigits(m);
    s := Spelling(n < 0, Digits(m), "", Exponent.NoExponent);
    assert Digits(m) + "" == Digits(m);
  }

  // ----- Values -----

  lemma {:induction false} TabsAreStrict(n: nat)
    ensures StrictBlank(Tabs(n))
  {
    if n > 0 { TabsAreStrict(n - 1); }
  }

  lemma StrictParts(a: string, b: string, fmt: bool)
    requires StrictBlank(a) && StrictBlank(b)
    ensures StrictBlank(a + b) && StrictBlank(If(fmt, "\n")) && StrictBlank(If(fmt, " ")) && StrictBlank(If(fmt, "\t"))
    ensures StrictBlank(If(fmt, a)) && StrictBlank("")
  {
  }

  lemma StrictIsBlank(s: string)
    requires StrictBlank(s)
    ensures Blank(s)
  {
  }

  ghost predicate Derives(d: Doc, v: Json, s: string) {
    Strict(d) && DocOk(d) && DocText(d) == s && Value(d) == v
  }

  lemma LeafIsDocument(v: Json, depth: nat, fmt: bool) returns (d: Doc)
    requires Printable(v) && !v.Array? && !v.Object?
    ensures Derives(d, v, Print(v, depth, fmt))
  {
    hide Decimal, NumberOf, SpellingOk, TextOfNumber, TextOfAll, EscapedAll, MeaningOfAll, PiecesOk, StrictPieces;
    match v
    case Number(n, _) =>
      var s := DecimalIsNumber(n);
      d := Numeral(s);
    case String(t) =>
      var pieces := EscapedArePieces(t);
      d := Text(pieces);
    case _ => d := Word(v);
  }

  // The items behind some blanks, and the closing bracket.
  lemma ItemsAreDocuments(items: seq<Json>, depth: nat, fmt: bool, lead: string) returns (docs: seq<Item>)
    requires items != [] && (forall i | 0 <= i < |items| :: Printable(items[i])) && StrictBlank(lead)
    ensures docs != [] && StrictItems(docs) && ItemsOk(docs) && Values(docs) == items
    ensures ListText(docs) == lead + (PrintItems(items, depth, fmt) + "]")
    decreases items, 0
  {
    hide Print, Printable, PrintItems, Strict, DocOk, DocText, Value;
    var d := ValueIsDocument(items[0], depth, fmt);
    StrictParts("", "", fmt);
    StrictIsBlank(lead);
    StrictIsBlank("");
    var item := Item(lead, d, "");
    if |items| == 1 {
      docs := [item];
      OneItem(items, depth, fmt);
      assert items == [items[0]];
      assert Values(docs) == [items[0]];
    } else {
      var rest := ItemsAreDocuments(items[1..], depth, fmt, If(fmt, " "));
      docs := [item] + rest;
      assert docs[1..] == rest;
      assert items == [items[0]] + items[1..];
      ItemsText(items, depth, fmt);
      assert "" + ("," + ListText(rest)) == "," + ListText(rest);
    }
  }

  // The members behind some blanks, the blanks behind them, and the closing brace.
  lemma MembersAreFields(members: seq<Member>, depth: nat, fmt: bool, lead: string, close: string)
    returns (fields: seq<Field>)
    requires members != [] && StrictBlank(lead) && StrictBlank(close)
    requires forall i | 0 <= i < |members| :: PrintableText(members[i].name) && Printable(members[i].value)
    ensures fields != [] && StrictFields(fields) && FieldsOk(fields) && Members(fields) == members
    ensures FieldsText(fields) == lead + (PrintMembers(members, depth, fmt) + (close + "}"))
    decreases members, 1
  {
    hide Print, Printable, PrintMembers, Strict, DocOk, DocText, Value, Tabs, Quoted, StringText, MeaningOfAll,
         PrintMember, PrintableText, PiecesOk, StrictPieces, StrictBlank, Blank;
    var m, rest := members[0], members[1..];
    var nl, lead2 := If(fmt, "\n"), lead + If(fmt, Tabs(depth));
    var after := nl + (PrintMembers(rest, depth, fmt) + (close + "}"));
    var name := NameIsText(m.name);
    var d := ValueIsDocument(m.value, depth, fmt);
    FieldBlanks(depth, fmt, lead, close);
    MembersText(members, depth, fmt, lead, close);
    MemberText(m, depth, fmt, If(|members| > 1, ",") + after);
    if rest == [] {
      NoMembers(depth, fmt, close);
      fields := [Field(lead2, name, "", Item(If(fmt, "\t"), d, nl + close))];
      LastFieldText(fields, after);
      assert members == [m];
      assert Members(fields) == [m];
    } else {
      var more := MembersAreFields(rest, depth, fmt, nl, close);
      fields := [Field(lead2, name, "", Item(If(fmt, "\t"), d, ""))] + more;
      assert fields[1..] == more;
      MoreFieldsText(fields);
      assert members == [m] + rest;
    }
  }

  lemma NameIsText(s: string) returns (pieces: seq<Piece>)
    requires PrintableText(s)
    ensures StrictPieces(pieces) && PiecesOk(pieces) && StringText(pieces) == Quoted(s) && MeaningOfAll(pieces) == s
  {
    hide StrictPieces, PiecesOk, TextOfAll, EscapedAll, MeaningOfAll;
    pieces := EscapedArePieces(s);
  }

  // All blanks between the members are strict.
  lemma FieldBlanks(depth: nat, fmt: bool, lead: string, close: string)
    requires StrictBlank(lead) && StrictBlank(close)
    ensures StrictBlank(lead + If(fmt, Tabs(depth))) && Blank(lead + If(fmt, Tabs(depth)))
    ensures StrictBlank(If(fmt, "\n")) && Blank(If(fmt, "\n")) && StrictBlank(If(fmt, "\t")) && Blank(If(fmt, "\t"))
    ensures StrictBlank(If(fmt, "\n") + close) && Blank(If(fmt, "\n") + close) && StrictBlank("") && Blank("")
  {
    hide StrictBlank, Blank, Tabs;
    TabsAreStrict(depth);
    StrictParts(Tabs(depth), "", fmt) by { StrictNothing(); }
    StrictParts(lead, If(fmt, Tabs(depth)), fmt);
    StrictParts(If(fmt, "\n"), close, fmt);
    StrictIsBlank(lead + If(fmt, Tabs(depth)));
    StrictIsBlank(If(fmt, "\n"));
    StrictIsBlank(If(fmt, "\t"));
    StrictIsBlank(If(fmt, "\n") + close);
    StrictIsBlank("");
  }

  lemma StrictNothing()
    ensures StrictBlank("")
  {
  }

  lemma LastFieldText(fields: seq<Field>, after: string)
    requires |fields| == 1 && fields[0].colon == "" && after == fields[0].item.after + "}"
    ensures FieldsText(fields) == fields[0].before + (StringText(fields[0].name) +
      (":" + (fields[0].item.before + (DocText(fields[0].item.doc) + after))))
  {
    hide StringText, DocText, FieldsText, FieldRest;
    FieldsTextIs(fields, 0);
    Nothing(":" + FieldRest(fields));
  }

  lemma Nothing(s: string)
    ensures "" + s == s
  {
  }

  lemma MoreFieldsText(fields: seq<Field>)
    requires |fields| > 1 && fields[0].colon == "" && fields[0].item.after == ""
    ensures FieldsText(fields) == fields[0].before + (StringText(fields[0].name) +
      (":" + (fields[0].item.before + (DocText(fields[0].item.doc) + ("," + FieldsText(fields[1..]))))))
  {
    hide StringText, DocText, FieldsText, FieldRest;
    FieldsTextIs(fields, 0);
    Nothing(":" + FieldRest(fields));
    Nothing("," + FieldsText(fields[1..]));
  }

  lemma ObjectIsDocument(v: Json, depth: nat, fmt: bool) returns (d: Doc)
    requires Printable(v) && v.Object?
    ensures Derives(d, v, Print(v, depth, fmt))
    decreases v, 0
  {
    hide Tabs, PrintMembers, StrictBlank, Blank, StrictFields, FieldsOk, FieldsText, Members;
    var inner: nat := if depth > 0 then depth - 1 else 0;
    StrictNothing();
    if v.members == [] {
      FieldBlanks(inner, fmt, If(fmt, "\n"), "") by { StrictParts("", "", fmt); }
      var gap := If(fmt, "\n" + Tabs(inner));
      assert gap == If(fmt, "\n") + If(fmt, Tabs(inner));
      d := Record(gap, []);
      NoFields();
    } else {
      TabsAreStrict(depth);
      StrictParts(Tabs(depth), "", fmt);
      var fields := MembersAreFields(v.members, depth + 1, fmt, If(fmt, "\n"), If(fmt, Tabs(depth)));
      StrictIsBlank("");
      d := Record("", fields);
    }
  }

  lemma NoFields()
    ensures StrictFields([]) && FieldsOk([]) && Members([]) == [] && StrictItems([]) && ItemsOk([]) && Values([]) == []
  {
  }

  lemma ArrayText(items: seq<Json>, depth: nat, fmt: bool)
    ensures Print(Array(items), depth, fmt) == if items == [] then "[]"
      else "[" + (PrintItems(items, depth + 1, fmt) + "]")
  {
    hide PrintItems;
  }

  lemma ListIs(docs: seq<Item>)
    requires StrictItems(docs) && ItemsOk(docs)
    ensures var d := List("", docs);
      Strict(d) && DocOk(d) && DocText(d) == "[" + (if docs == [] then "]" else ListText(docs))
        && Value(d) == Array(Values(docs))
  {
    hide StrictItems, ItemsOk, ListText, Values;
    Nothing("]");
  }

  lemma ArrayIsDocument(v: Json, depth: nat, fmt: bool) returns (d: Doc)
    requires Printable(v) && v.Array?
    ensures Derives(d, v, Print(v, depth, fmt))
    decreases v, 0
  {
    hide Print, PrintItems, Strict, StrictItems, DocOk, ItemsOk, DocText, ListText, Value, Values, StrictBlank;
    NoFields();
    StrictNothing();
    ArrayText(v.items, depth, fmt);
    if v.items == [] {
      ListIs([]);
      d := List("", []);
    } else {
      var docs := ItemsAreDocuments(v.items, depth + 1, fmt, "");
      Nothing(PrintItems(v.items, depth + 1, fmt) + "]");
      ListIs(docs);
      d := List("", docs);
    }
  }

  // Every printed text is derived, strictly, and means the printed value.
  lemma ValueIsDocument(v: Json, depth: nat, fmt: bool) returns (d: Doc)
    requires Printable(v)
    ensures Derives(d, v, Print(v, depth, fmt))
    decreases v, 1
  {
    hide Derives, Printable;
    if v.Array? {
      d := ArrayIsDocument(v, depth, fmt);
    } else if v.Object? {
      d := ObjectIsDocument(v, depth, fmt);
    } else {
      d := LeafIsDocument(v, depth, fmt);
    }
  }
}
