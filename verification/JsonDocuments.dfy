/**
 Every JSON text that the grammar of RFC 8259 derives is read as the value it means: values with any
 blanks around them, numbers and strings in any spelling, arrays and objects of any depth.
*/
module JsonDocuments {
  import opened JsonText
  import opened JsonRoundTrip
  import opened JsonNumbers
  import opened JsonStrings

  // A derivation: what stands where in the text.
  datatype Doc =
    | Word(value: Json)
    | Numeral(spelling: Spelling)
    | Text(pieces: seq<Piece>)
    | List(blank: string, items: seq<Item>)      // the blank is between the brackets when there are no items
    | Record(blank: string, fields: seq<Field>)

  datatype Item = Item(before: string, doc: Doc, after: string)

  datatype Field = Field(before: string, name: seq<Piece>, colon: string, item: Item)

  predicate PiecesOk(pieces: seq<Piece>) {
    forall i | 0 <= i < |pieces| :: PieceOk(pieces[i])
  }

  predicate DocOk(d: Doc)
    decreases d, 0
  {
    match d
    case Word(v) => v.Null? || v.False? || v.True?
    case Numeral(s) => SpellingOk(s)
    case Text(pieces) => PiecesOk(pieces)
    case List(blank, items) => Blank(blank) && ItemsOk(items)
    case Record(blank, fields) => Blank(blank) && FieldsOk(fields)
  }

  predicate ItemsOk(items: seq<Item>)
    decreases items, 1
  {
    items == [] || (
      && Blank(items[0].before) && Blank(items[0].after) && DocOk(items[0].doc)
      && ItemsOk(items[1..]))
  }

  predicate FieldsOk(fields: seq<Field>)
    decreases fields, 1
  {
    fields == [] || (
      && Blank(fields[0].before) && PiecesOk(fields[0].name) && Blank(fields[0].colon)
      && Blank(fields[0].item.before) && Blank(fields[0].item.after) && DocOk(fields[0].item.doc)
      && FieldsOk(fields[1..]))
  }

  predicate ItemOk(item: Item) {
    Blank(item.before) && Blank(item.after) && DocOk(item.doc)
  }

  predicate FieldOk(field: Field) {
    Blank(field.before) && PiecesOk(field.name) && Blank(field.colon) && ItemOk(field.item)
  }

  // ----- The text -----

  function StringText(pieces: seq<Piece>): string {
    ['\"'] + (TextOfAll(pieces) + ['\"'])
  }

  function DocText(d: Doc): string
    decreases d, 0
  {
    match d
    case Word(v) => if v.Null? then "null" else if v.False? then "false" else "true"
    case Numeral(s) => TextOfNumber(s)
    case Text(pieces) => StringText(pieces)
    case List(blank, items) => "[" + (if items == [] then blank + "]" else ListText(items))
    case Record(blank, fields) => "{" + (if fields == [] then blank + "}" else FieldsText(fields))
  }

  // The items and the closing bracket.
  function ListText(items: seq<Item>): string
    decreases items, 1
  {
    if items == [] then "" else
      items[0].before + (DocText(items[0].doc) + (items[0].after +
        (if |items| == 1 then "]" else "," + ListText(items[1..]))))
  }

  // The fields and the closing brace.
  function FieldsText(fields: seq<Field>): string
    decreases fields, 1
  {
    if fields == [] then "" else
      fields[0].before + (StringText(fields[0].name) + (fields[0].colon + (":" + FieldRest(fields))))
  }

  // What stands behind the first colon.
  function FieldRest(fields: seq<Field>): string
    requires fields != []
    decreases fields, 0
  {
    var item := fields[0].item;
    item.before + (DocText(item.doc) + (item.after + (if |fields| == 1 then "}" else "," + FieldsText(fields[1..]))))
  }

  // ----- The meaning -----

  function Value(d: Doc): Json
    requires DocOk(d)
    decreases d, 0
  {
    match d
    case Word(v) => v
    case Numeral(s) => NumberOf(s)
    case Text(pieces) => String(MeaningOfAll(pieces))
    case List(_, items) => Array(Values(items))
    case Record(_, fields) => Object(Members(fields))
  }

  function Values(items: seq<Item>): (vs: seq<Json>)
    requires ItemsOk(items)
    ensures |vs| == |items|
    decreases items, 1
  {
    if items == [] then [] else [Value(items[0].doc)] + Values(items[1..])
  }

  function Members(fields: seq<Field>): (ms: seq<Member>)
    requires FieldsOk(fields)
    ensures |ms| == |fields|
    decreases fields, 1
  {
    if fields == [] then []
    else [Member(MeaningOfAll(fields[0].name), Value(fields[0].item.doc))] + Members(fields[1..])
  }

  // ----- The parser -----

  // The first character of a document.
  predicate Starts(c: char) {
    !IsBlank(c) && c != ']' && c != '}'
  }

  lemma DocStarts(d: Doc)
    requires DocOk(d)
    ensures DocText(d) != "" && Starts(DocText(d)[0])
  {
    hide TextOfAll, ListText, FieldsText;
    if d.Numeral? { NumberStarts(d.spelling); }
  }

  lemma NumberStarts(s: Spelling)
    requires SpellingOk(s)
    ensures TextOfNumber(s) != "" && (TextOfNumber(s)[0] == '-' || IsDigit(TextOfNumber(s)[0]))
  {
    hide ExponentOk, TextOfExponent, TextOfFraction;
    FirstDigitOf(s.whole);
  }

  // The document is followed by something that is not part of it, and is read.
  ghost predicate Reads(d: Doc, text: string, p: nat)
    requires DocOk(d)
  {
    StartsWith(text, p, DocText(d)) && EndsNumber(At(text, p + |DocText(d)|)) ==>
      ParseValue(text, p) == Ok(Value(d), p + |DocText(d)|)
  }

  lemma LeafReads(d: Doc, text: string, p: nat)
    requires DocOk(d) && (d.Word? || d.Numeral? || d.Text?)
    ensures Reads(d, text, p)
  {
    hide ParseNumber, ParseString, Skip, TextOfNumber, TextOfAll, MeaningOfAll, SpellingOk, NumberOf, PiecesOk;
    var s := DocText(d);
    if StartsWith(text, p, s) && EndsNumber(At(text, p + |s|)) {
      DocStarts(d);
      FirstIs(text, p, s);
      match d
      case Word(v) =>
        if !v.Null? { WordStart(text, p, "null"); }
        if v.True? { WordStart(text, p, "false"); }
      case Numeral(spelling) =>
        NumberStarts(spelling);
        NoWord(text, p);
        NumberMeans(text, p, spelling);
      case Text(pieces) =>
        NoWord(text, p);
        TextReads(text, p, pieces);
    }
  }

  lemma TextReads(text: string, p: nat, pieces: seq<Piece>)
    requires PiecesOk(pieces) && StartsWith(text, p, StringText(pieces))
    ensures ParseString(text, p) == Ok(MeaningOfAll(pieces), p + |StringText(pieces)|)
  {
    hide ParseString, StartsWith;
    StringMeans(text, p, pieces);
  }

  // Blanks, a document, blanks, and what is left.
  lemma ItemThen(item: Item, text: string, p: nat, tail: string)
    requires ItemOk(item) && StartsWith(text, p, item.before + (DocText(item.doc) + (item.after + tail)))
    requires tail != "" && tail[0] in ",]}"
    requires Reads(item.doc, text, p + |item.before|)
    ensures var q := p + |item.before| + |DocText(item.doc)|;
      && ParseValue(text, Skip(text, p)) == Ok(Value(item.doc), q)
      && Starts(At(text, Skip(text, p)))
      && Skip(text, q) == q + |item.after| && At(text, q + |item.after|) == tail[0]
      && StartsWith(text, q + |item.after|, tail)
  {
    hide ParseValue, Skip, StartsWith, At, DocOk, DocText, Value;
    var s, after := DocText(item.doc), item.after + tail;
    var r := p + |item.before|;
    var q := r + |s|;
    Concat(text, p, item.before, s + after);
    Concat(text, r, s, after);
    Concat(text, q, item.after, tail);
    DocStarts(item.doc);
    FirstIs(text, r, s);
    FirstIs(text, q, after);
    FirstIs(text, q + |item.after|, tail);
    SkipBlank(text, p, item.before);
    SkipBlank(text, q, item.after);
  }

  lemma ItemsStep(text: string, p: nat, v: Json, q: nat)
    requires ParseValue(text, Skip(text, p)) == Ok(v, q)
    ensures At(text, Skip(text, q)) == ']' ==> ParseItems(text, p) == Ok([v], Skip(text, q) + 1)
    ensures At(text, Skip(text, q)) == ',' && ParseItems(text, Skip(text, q) + 1).Ok? ==>
      var rest := ParseItems(text, Skip(text, q) + 1);
      ParseItems(text, p) == Ok([v] + rest.value, rest.next)
  {
    hide ParseValue, Skip, At;
  }

  lemma {:induction false} ItemsRead(items: seq<Item>, text: string, p: nat)
    requires items != [] && ItemsOk(items) && StartsWith(text, p, ListText(items))
    ensures ParseItems(text, p) == Ok(Values(items), p + |ListText(items)|)
    ensures Starts(At(text, Skip(text, p)))
    decreases items, 1
  {
    hide ParseValue, ParseItems, Skip, StartsWith, At, DocOk, DocText, Value, Reads;
    var item := items[0];
    var tail := if |items| == 1 then "]" else "," + ListText(items[1..]);
    var q := p + |item.before| + |DocText(item.doc)|;
    DocReads(item.doc, text, p + |item.before|);
    ItemThen(item, text, p, tail);
    ItemsStep(text, p, Value(item.doc), q);
    assert ListText(items) == item.before + (DocText(item.doc) + (item.after + tail));
    assert Values(items) == [Value(item.doc)] + Values(items[1..]);
    if |items| > 1 {
      Concat(text, q + |item.after|, ",", ListText(items[1..]));
      ItemsRead(items[1..], text, q + |item.after| + 1);
    } else {
      assert Values(items) == [Value(item.doc)];
    }
  }

  lemma MemberStep(text: string, p: nat, name: string, q: nat, v: Json, end: nat)
    requires ParseString(text, Skip(text, p)) == Ok(name, q) && At(text, Skip(text, q)) == ':'
    requires ParseValue(text, Skip(text, Skip(text, q) + 1)) == Ok(v, end)
    ensures ParseMember(text, p) == Ok(Member(name, v), end)
  {
    hide ParseValue, Skip, At, ParseString;
  }

  lemma MembersStep(text: string, p: nat, m: Member, q: nat)
    requires ParseMember(text, p) == Ok(m, q)
    ensures At(text, Skip(text, q)) == '}' ==> ParseMembers(text, p) == Ok([m], Skip(text, q) + 1)
    ensures At(text, Skip(text, q)) == ',' && ParseMembers(text, Skip(text, q) + 1).Ok? ==>
      var rest := ParseMembers(text, Skip(text, q) + 1);
      ParseMembers(text, p) == Ok([m] + rest.value, rest.next)
  {
    hide ParseMember, Skip, At;
  }

  // A name and its colon.
  lemma NameThen(field: Field, text: string, p: nat, tail: string)
    requires FieldOk(field)
    requires StartsWith(text, p, field.before + (StringText(field.name) + (field.colon + (":" + tail))))
    ensures var q := p + |field.before| + |StringText(field.name)|;
      && ParseString(text, Skip(text, p)) == Ok(MeaningOfAll(field.name), q)
      && At(text, Skip(text, p)) == '\"'
      && Skip(text, q) == q + |field.colon| && At(text, q + |field.colon|) == ':'
      && StartsWith(text, q + |field.colon| + 1, tail)
  {
    hide ParseString, Skip, StartsWith, At, TextOfAll, MeaningOfAll, PiecesOk, ItemOk;
    var s, rest := StringText(field.name), field.colon + (":" + tail);
    var r := p + |field.before|;
    var q := r + |s|;
    Concat(text, p, field.before, s + rest);
    Concat(text, r, s, rest);
    Concat(text, q, field.colon, ":" + tail);
    Concat(text, q + |field.colon|, ":", tail);
    FirstIs(text, r, s);
    FirstIs(text, q + |field.colon|, ":");
    SkipBlank(text, p, field.before);
    SkipBlank(text, q, field.colon);
    TextReads(text, r, field.name);
  }

  // Where the value of the first field begins.
  function ValueAt(fields: seq<Field>, p: nat): nat
    requires fields != []
  {
    p + |fields[0].before| + |StringText(fields[0].name)| + |fields[0].colon| + 1 + |fields[0].item.before|
  }

  function TailOf(fields: seq<Field>): string
    requires fields != []
  {
    if |fields| == 1 then "}" else "," + FieldsText(fields[1..])
  }

  lemma FieldsTextIs(fields: seq<Field>, p: nat)
    requires fields != []
    ensures var item := fields[0].item;
      && FieldsText(fields) ==
           fields[0].before + (StringText(fields[0].name) + (fields[0].colon + (":" + FieldRest(fields))))
      && FieldRest(fields) == item.before + (DocText(item.doc) + (item.after + TailOf(fields)))
      && p + |FieldsText(fields)| == ValueAt(fields, p) + |DocText(item.doc)| + |item.after| + |TailOf(fields)|
  {
    hide DocText, StringText;
  }

  // The first field, and what stands behind it.
  lemma FieldThen(fields: seq<Field>, text: string, p: nat)
    requires fields != [] && FieldsOk(fields) && StartsWith(text, p, FieldsText(fields))
    requires Reads(fields[0].item.doc, text, ValueAt(fields, p))
    ensures var field, q := fields[0], ValueAt(fields, p) + |DocText(fields[0].item.doc)|;
      && At(text, Skip(text, p)) == '\"'
      && ParseMember(text, p) == Ok(Member(MeaningOfAll(field.name), Value(field.item.doc)), q)
      && Skip(text, q) == q + |field.item.after| && At(text, q + |field.item.after|) == TailOf(fields)[0]
      && StartsWith(text, q + |field.item.after|, TailOf(fields))
  {
    hide ParseValue, ParseMember, ParseString, Skip, StartsWith, At, DocOk, DocText, Value, Reads, MeaningOfAll,
         StringText, FieldsText, FieldRest;
    var field, item := fields[0], fields[0].item;
    FieldsTextIs(fields, p);
    NameThen(field, text, p, FieldRest(fields));
    var c := p + |field.before| + |StringText(field.name)|;
    ItemThen(item, text, c + |field.colon| + 1, TailOf(fields));
    MemberStep(text, p, MeaningOfAll(field.name), c, Value(item.doc), ValueAt(fields, p) + |DocText(item.doc)|);
  }

  lemma {:induction false} FieldsRead(fields: seq<Field>, text: string, p: nat)
    requires fields != [] && FieldsOk(fields) && StartsWith(text, p, FieldsText(fields))
    ensures ParseMembers(text, p) == Ok(Members(fields), p + |FieldsText(fields)|)
    ensures At(text, Skip(text, p)) == '\"'
    decreases fields, 1
  {
    hide ParseMembers, ParseMember, Skip, StartsWith, At, DocOk, DocText, Value, Reads, MeaningOfAll, StringText,
         FieldsText, ValueAt;
    var field := fields[0];
    DocReads(field.item.doc, text, ValueAt(fields, p));
    FieldThen(fields, text, p);
    FieldsTextIs(fields, p);
    var q := ValueAt(fields, p) + |DocText(field.item.doc)|;
    var m := Member(MeaningOfAll(field.name), Value(field.item.doc));
    MembersStep(text, p, m, q);
    assert Members(fields) == [m] + Members(fields[1..]);
    if |fields| > 1 {
      Concat(text, q + |field.item.after|, ",", FieldsText(fields[1..]));
      FieldsRead(fields[1..], text, q + |field.item.after| + 1);
    } else {
      assert Members(fields) == [m];
    }
  }

  lemma ListReads(d: Doc, text: string, p: nat)
    requires DocOk(d) && d.List?
    ensures Reads(d, text, p)
    decreases d, 2
  {
    hide ParseItems, ParseMembers, Skip, StartsWith, At, ListText, ItemsOk, Values;
    var s, items := DocText(d), d.items;
    if StartsWith(text, p, s) && EndsNumber(At(text, p + |s|)) {
      var body := if items == [] then d.blank + "]" else ListText(items);
      Concat(text, p, "[", body);
      FirstIs(text, p, "[");
      NoWord(text, p);
      if items == [] {
        Concat(text, p + 1, d.blank, "]");
        FirstIs(text, p + 1 + |d.blank|, "]");
        SkipBlank(text, p + 1, d.blank);
      } else {
        ItemsRead(items, text, p + 1);
        SkipTwice(text, p + 1);
      }
    }
  }

  lemma RecordReads(d: Doc, text: string, p: nat)
    requires DocOk(d) && d.Record?
    ensures Reads(d, text, p)
    decreases d, 2
  {
    hide ParseMembers, ParseItems, Skip, StartsWith, At, FieldsText, FieldsOk, Members;
    var s, fields := DocText(d), d.fields;
    if StartsWith(text, p, s) && EndsNumber(At(text, p + |s|)) {
      var body := if fields == [] then d.blank + "}" else FieldsText(fields);
      Concat(text, p, "{", body);
      FirstIs(text, p, "{");
      NoWord(text, p);
      if fields == [] {
        Concat(text, p + 1, d.blank, "}");
        FirstIs(text, p + 1 + |d.blank|, "}");
        SkipBlank(text, p + 1, d.blank);
      } else {
        FieldsRead(fields, text, p + 1);
        SkipTwice(text, p + 1);
      }
    }
  }

  lemma DocReads(d: Doc, text: string, p: nat)
    requires DocOk(d)
    ensures Reads(d, text, p)
    decreases d, 3
  {
    hide Reads, DocOk;
    if d.List? {
      ListReads(d, text, p);
    } else if d.Record? {
      RecordReads(d, text, p);
    } else {
      LeafReads(d, text, p);
    }
  }

  lemma Pieces(a: string, b: string, c: string)
    ensures var text := a + b + c;
      StartsWith(text, 0, a) && StartsWith(text, |a|, b) && StartsWith(text, |a| + |b|, c) && At(text, |text|) == NUL
  {
  }

  // A whole text: blanks, a document, blanks.
  lemma TextMeans(item: Item)
    requires ItemOk(item)
    ensures var text := item.before + DocText(item.doc) + item.after;
      var r := ParseValue(text, Skip(text, 0));
      && r == Ok(Value(item.doc), |item.before| + |DocText(item.doc)|)
      && Skip(text, r.next) == |text|
  {
    hide ParseValue, Skip, DocOk, DocText, Value, Reads, StartsWith, At;
    var s := DocText(item.doc);
    var text := item.before + s + item.after;
    var q := |item.before| + |s|;
    Pieces(item.before, s, item.after);
    DocStarts(item.doc);
    FirstIs(text, |item.before|, s);
    SkipBlank(text, 0, item.before);
    SkipBlank(text, q, item.after);
    if item.after != "" { FirstIs(text, q, item.after); }
    DocReads(item.doc, text, |item.before|);
    WholeReads(item.doc, text, |item.before|);
  }

  lemma WholeReads(d: Doc, text: string, p: nat)
    requires DocOk(d) && Reads(d, text, p) && StartsWith(text, p, DocText(d)) && EndsNumber(At(text, p + |DocText(d)|))
    ensures ParseValue(text, p) == Ok(Value(d), p + |DocText(d)|)
  {
    hide DocOk, DocText, Value, ParseValue;
  }
}
