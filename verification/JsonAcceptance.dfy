/**
 What the JSON parser accepts: whatever it returns a value for is derived by the grammar of RFC 8259
 up to known liberties in numbers and strings, and the value is the one the derivation means.
 Everything is said of texts that end before the parser does: a malformed escape at the very end of a
 text makes it read on behind the text.
*/
module JsonAcceptance {
  import opened JsonText
  import opened JsonRoundTrip
  import opened JsonNumbers
  import opened JsonStrings

  // ----- Strings -----

  // A proper piece, a backslash before a character that needs none, or a \u escape that adds nothing.
  datatype LoosePiece = Proper(piece: Piece) | Odd(c: char) | Dropped(text: string)

  datatype StringToken = StringToken(pieces: seq<LoosePiece>, closed: bool)

  predicate LoosePieceOk(l: LoosePiece) {
    match l
    case Proper(piece) => PieceOk(piece)
    case Odd(c) => c != 'u'
    case Dropped(t) => (|t| == 6 || |t| == 12) && t[0] == '\\' && t[1] == 'u'
  }

  function LoosePieceText(l: LoosePiece): string {
    match l
    case Proper(piece) => TextOf(piece)
    case Odd(c) => ['\\', c]
    case Dropped(t) => t
  }

  function Adds(l: LoosePiece): string
    requires LoosePieceOk(l)
  {
    match l
    case Proper(piece) => Meaning(piece)
    case Odd(c) => [c]
    case Dropped(_) => ""
  }

  predicate AllLooseOk(ls: seq<LoosePiece>) {
    forall i | 0 <= i < |ls| :: LoosePieceOk(ls[i])
  }

  function LooseText(ls: seq<LoosePiece>): string {
    if ls == [] then "" else LoosePieceText(ls[0]) + LooseText(ls[1..])
  }

  function AllAdds(ls: seq<LoosePiece>): string
    requires AllLooseOk(ls)
  {
    if ls == [] then "" else Adds(ls[0]) + AllAdds(ls[1..])
  }

  function TokenText(t: StringToken): string {
    ['\"'] + (LooseText(t.pieces) + if t.closed then "\"" else "")
  }

  lemma SliceStands(text: string, p: nat, q: nat)
    requires p <= q <= |text|
    ensures StartsWith(text, p, text[p..q]) && |text[p..q]| == q - p
  {
  }

  // The escape at p, when it ends inside the text.
  lemma EscapeAccepts(text: string, p: nat) returns (l: LoosePiece)
    requires At(text, p) == '\\' && ParseEscape(text, p + 1).1 <= |text|
    ensures LoosePieceOk(l) && StartsWith(text, p, LoosePieceText(l))
    ensures ParseEscape(text, p + 1) == (Adds(l), p + |LoosePieceText(l)|)
  {
    hide Hex4, Utf8, Spells, ParseUnicode;
    var c, r := At(text, p + 1), ParseEscape(text, p + 1);
    if c == 'u' {
      l := UnicodeAccepts(text, p);
    } else {
      SliceStands(text, p, p + 2);
      assert text[p..p + 2] == ['\\', c];
      l := if c in "\"\\/bfnrt" then Proper(Letter(c)) else Odd(c);
    }
  }

  lemma UnicodeAccepts(text: string, p: nat) returns (l: LoosePiece)
    requires At(text, p) == '\\' && At(text, p + 1) == 'u' && ParseEscape(text, p + 1).1 <= |text|
    ensures LoosePieceOk(l) && StartsWith(text, p, LoosePieceText(l))
    ensures ParseEscape(text, p + 1) == (Adds(l), p + |LoosePieceText(l)|)
  {
    hide Hex4, Utf8, Spells, StartsWith;
    var r := ParseEscape(text, p + 1);
    if r.0 != "" {
      var piece := NothingElse(text, p);
      if piece.Unit? { UnitParses(text, p, piece); } else { PairParses(text, p, piece); }
      PieceLength(piece);
      l := Proper(piece);
    } else {
      SliceStands(text, p, r.1);
      l := Dropped(text[p..r.1]);
    }
  }

  lemma PieceLength(piece: Piece)
    requires PieceOk(piece)
    ensures piece.Unit? ==> |TextOf(piece)| == 6
    ensures piece.Pair? ==> |TextOf(piece)| == 12
  {
    hide IsHex;
  }

  lemma {:induction false} CharsAccept(text: string, p: nat) returns (ls: seq<LoosePiece>)
    requires ParseChars(text, p).1 <= |text|
    ensures AllLooseOk(ls) && StartsWith(text, p, LooseText(ls))
    ensures ParseChars(text, p) == (AllAdds(ls), p + |LooseText(ls)|)
    ensures At(text, p + |LooseText(ls)|) == '\"' || At(text, p + |LooseText(ls)|) == NUL
    decreases Left(text, p)
  {
    hide ParseEscape, StartsWith, LoosePieceOk, Adds, LoosePieceText, ParseChars, At;
    var c := At(text, p);
    if c == '\"' || c == NUL {
      CharsEnd(text, p);
      NothingStands(text, p);
      ls := [];
    } else {
      var l, q := Odd(c), p + 1;
      if c == '\\' {
        EscapeStep(text, p);
        q := ParseEscape(text, p + 1).1;
        CharsForward(text, q);
        l := EscapeAccepts(text, p);
      } else {
        PlainStep(text, p);
        l := PlainAccepts(text, p);
      }
      var rest := CharsAccept(text, q);
      ls := [l] + rest;
      assert ls[1..] == rest;
      Concat(text, p, LoosePieceText(l), LooseText(rest));
    }
  }

  lemma CharsForward(text: string, p: nat)
    ensures p <= ParseChars(text, p).1
  {
  }

  lemma PlainAccepts(text: string, p: nat) returns (l: LoosePiece)
    requires At(text, p) != '\"' && At(text, p) != '\\' && At(text, p) != NUL
    ensures LoosePieceOk(l) && LoosePieceText(l) == [At(text, p)] == Adds(l) && StartsWith(text, p, [At(text, p)])
  {
    l := Proper(Plain(At(text, p)));
  }

  // Whatever is taken for a string has this form and these characters.
  lemma StringAccepts(text: string, p: nat) returns (t: StringToken)
    requires At(text, p) == '\"' && ParseString(text, p).next <= |text|
    ensures AllLooseOk(t.pieces) && StartsWith(text, p, TokenText(t))
    ensures ParseString(text, p) == Ok(AllAdds(t.pieces), p + |TokenText(t)|)
    ensures !t.closed ==> At(text, p + |TokenText(t)|) == NUL
  {
    hide ParseChars, AllLooseOk, AllAdds, LooseText, StartsWith, At;
    var ls := CharsAccept(text, p + 1);
    var q := p + 1 + |LooseText(ls)|;
    var closed := At(text, q) == '\"';
    var end := if closed then "\"" else "";
    t := StringToken(ls, closed);
    CharStands(text, p, '\"');
    if closed { CharStands(text, q, '\"'); } else { NothingStands(text, q); }
    Concat(text, p + 1, LooseText(ls), end);
    Concat(text, p, ['\"'], LooseText(ls) + end);
  }

  // ----- Values -----

  datatype Tree =
    | Word(value: Json)
    | Numeral(spelling: Spelling)
    | Text(token: StringToken)
    | List(blank: string, kids: seq<Kid>)      // the blank is between the brackets when there are no kids
    | Record(blank: string, pairs: seq<Pairing>)

  datatype Kid = Kid(before: string, tree: Tree, after: string)

  datatype Pairing = Pairing(before: string, name: StringToken, colon: string, kid: Kid)

  predicate TreeOk(t: Tree)
    decreases t, 0
  {
    match t
    case Word(v) => v.Null? || v.False? || v.True?
    case Numeral(s) => LooseOk(s)
    case Text(token) => AllLooseOk(token.pieces)
    case List(blank, kids) => Blank(blank) && KidsOk(kids)
    case Record(blank, pairs) => Blank(blank) && PairsOk(pairs)
  }

  predicate KidsOk(kids: seq<Kid>)
    decreases kids, 1
  {
    kids == [] || (
      && Blank(kids[0].before) && Blank(kids[0].after) && TreeOk(kids[0].tree)
      && KidsOk(kids[1..]))
  }

  predicate PairsOk(pairs: seq<Pairing>)
    decreases pairs, 1
  {
    pairs == [] || (
      && Blank(pairs[0].before) && AllLooseOk(pairs[0].name.pieces) && Blank(pairs[0].colon)
      && Blank(pairs[0].kid.before) && Blank(pairs[0].kid.after) && TreeOk(pairs[0].kid.tree)
      && PairsOk(pairs[1..]))
  }

  function TreeText(t: Tree): string
    decreases t, 0
  {
    match t
    case Word(v) => if v.Null? then "null" else if v.False? then "false" else "true"
    case Numeral(s) => TextOfNumber(s)
    case Text(token) => TokenText(token)
    case List(blank, kids) => "[" + (if kids == [] then blank + "]" else KidsText(kids))
    case Record(blank, pairs) => "{" + (if pairs == [] then blank + "}" else PairsText(pairs))
  }

  // The kids and the closing bracket.
  function KidsText(kids: seq<Kid>): string
    decreases kids, 1
  {
    if kids == [] then "" else
      kids[0].before + (TreeText(kids[0].tree) + (kids[0].after +
        (if |kids| == 1 then "]" else "," + KidsText(kids[1..]))))
  }

  // The pairs and the closing brace.
  function PairsText(pairs: seq<Pairing>): string
    decreases pairs, 1
  {
    if pairs == [] then "" else
      pairs[0].before + (TokenText(pairs[0].name) + (pairs[0].colon + (":" +
        (pairs[0].kid.before + (TreeText(pairs[0].kid.tree) + (pairs[0].kid.after +
          (if |pairs| == 1 then "}" else "," + PairsText(pairs[1..]))))))))
  }

  function TreeValue(t: Tree): Json
    requires TreeOk(t)
    decreases t, 0
  {
    match t
    case Word(v) => v
    case Numeral(s) => LooseNumber(s)
    case Text(token) => String(AllAdds(token.pieces))
    case List(_, kids) => Array(KidValues(kids))
    case Record(_, pairs) => Object(PairValues(pairs))
  }

  function KidValues(kids: seq<Kid>): seq<Json>
    requires KidsOk(kids)
    decreases kids, 1
  {
    if kids == [] then [] else [TreeValue(kids[0].tree)] + KidValues(kids[1..])
  }

  function PairValues(pairs: seq<Pairing>): seq<Member>
    requires PairsOk(pairs)
    decreases pairs, 1
  {
    if pairs == [] then []
    else [Member(AllAdds(pairs[0].name.pieces), TreeValue(pairs[0].kid.tree))] + PairValues(pairs[1..])
  }

  // The blanks that are skipped.
  lemma SkippedIsBlank(text: string, p: nat) returns (blank: string)
    requires Skip(text, p) <= |text|
    ensures Blank(blank) && StartsWith(text, p, blank) && |blank| == Skip(text, p) - p
  {
    var q := Skip(text, p);
    blank := text[p..q];
    forall i | 0 <= i < |blank| ensures IsBlank(blank[i]) { assert blank[i] == At(text, p + i); }
  }

  lemma SkipForward(text: string, p: nat)
    ensures Skip(text, p) >= p
  {
  }

  lemma WordAccepts(text: string, p: nat) returns (t: Tree)
    requires StartsWith(text, p, "null") || StartsWith(text, p, "false") || StartsWith(text, p, "true")
    ensures t.Word? && TreeOk(t) && StartsWith(text, p, TreeText(t))
    ensures ParseValue(text, p) == Ok(TreeValue(t), p + |TreeText(t)|)
  {
    hide StartsWith;
    t := Word(if StartsWith(text, p, "null") then Null else if StartsWith(text, p, "false") then False else True);
  }

  lemma LeafAccepts(text: string, p: nat) returns (t: Tree)
    requires ParseValue(text, p).Ok? && ParseValue(text, p).next <= |text| && At(text, p) != '[' && At(text, p) != '{'
    ensures TreeOk(t) && StartsWith(text, p, TreeText(t))
    ensures ParseValue(text, p) == Ok(TreeValue(t), p + |TreeText(t)|)
  {
    hide ParseNumber, ParseString, StartsWith, TokenText, TextOfNumber, LooseOk, LooseNumber, AllLooseOk, AllAdds;
    if StartsWith(text, p, "null") || StartsWith(text, p, "false") || StartsWith(text, p, "true") {
      t := WordAccepts(text, p);
    } else if At(text, p) == '\"' {
      var token := StringAccepts(text, p);
      t := Text(token);
    } else {
      var s := NumberAccepts(text, p);
      t := Numeral(s);
    }
  }

  // How a list of items was accepted.
  lemma ItemsOpened(text: string, p: nat)
    requires ParseItems(text, p).Ok?
    ensures var v := ParseValue(text, Skip(text, p));
      && v.Ok?
      && var q := Skip(text, v.next);
         && p <= Skip(text, p) < v.next <= q < ParseItems(text, p).next
         && (At(text, q) == ']' || (At(text, q) == ',' && ParseItems(text, q + 1).Ok?))
         && ParseItems(text, p) ==
              (if At(text, q) == ']' then Ok([v.value], q + 1)
               else Ok([v.value] + ParseItems(text, q + 1).value, ParseItems(text, q + 1).next))
  {
    hide ParseValue, Skip, At;
    SkipForward(text, p);
    var v := ParseValue(text, Skip(text, p));
    ValueForward(text, Skip(text, p));
    SkipForward(text, v.next);
    if At(text, Skip(text, v.next)) == ',' { ItemsForward(text, Skip(text, v.next) + 1); }
  }

  lemma ValueForward(text: string, p: nat)
    ensures ParseValue(text, p).Ok? ==> ParseValue(text, p).next > p
  {
  }

  lemma ItemsForward(text: string, p: nat)
    ensures ParseItems(text, p).Ok? ==> ParseItems(text, p).next > p
  {
  }

  lemma MembersForward(text: string, p: nat)
    ensures ParseMembers(text, p).Ok? ==> ParseMembers(text, p).next > p
    ensures ParseMember(text, p).Ok? ==> ParseMember(text, p).next > p
    ensures ParseString(text, p).Ok? ==> ParseString(text, p).next > p
  {
  }

  lemma LeftBehind(text: string, p: nat, q: nat)
    requires p <= q
    ensures Left(text, q) <= Left(text, p)
    ensures p < q && p < |text| ==> Left(text, q) < Left(text, p)
  {
  }

  // A kid, and what the parser goes on with.
  lemma KidStands(text: string, p: nat, kid: Kid, tail: string)
    requires StartsWith(text, p, kid.before) && StartsWith(text, p + |kid.before|, TreeText(kid.tree))
    requires var q := p + |kid.before| + |TreeText(kid.tree)|;
      StartsWith(text, q, kid.after) && StartsWith(text, q + |kid.after|, tail)
    ensures StartsWith(text, p, kid.before + (TreeText(kid.tree) + (kid.after + tail)))
  {
    hide StartsWith, TreeText;
    var s := TreeText(kid.tree);
    Concat(text, p + |kid.before| + |s|, kid.after, tail);
    Concat(text, p + |kid.before|, s, kid.after + tail);
    Concat(text, p, kid.before, s + (kid.after + tail));
  }

  lemma ItemsAccept(text: string, p: nat) returns (kids: seq<Kid>)
    requires ParseItems(text, p).Ok? && ParseItems(text, p).next <= |text|
    ensures kids != [] && KidsOk(kids) && StartsWith(text, p, KidsText(kids))
    ensures ParseItems(text, p) == Ok(KidValues(kids), p + |KidsText(kids)|)
    decreases Left(text, p), 2
  {
    hide ParseValue, ParseItems, Skip, At, StartsWith, TreeOk, TreeText, TreeValue, Left;
    ItemsOpened(text, p);
    var r := Skip(text, p);
    LeftBehind(text, p, r);
    var before := SkippedIsBlank(text, p);
    var t := ValueAccepts(text, r);
    var q := r + |TreeText(t)|;
    var after := SkippedIsBlank(text, q);
    var e := Skip(text, q);
    var kid := Kid(before, t, after);
    if At(text, e) == ']' {
      kids := [kid];
      CharStands(text, e, ']');
      KidStands(text, p, kid, "]");
      assert KidValues(kids) == [TreeValue(t)];
    } else {
      LeftBehind(text, p, e + 1);
      var rest := ItemsAccept(text, e + 1);
      kids := [kid] + rest;
      assert kids[1..] == rest;
      CharStands(text, e, ',');
      Concat(text, e, ",", KidsText(rest));
      KidStands(text, p, kid, "," + KidsText(rest));
    }
  }

  lemma ListAccepts(text: string, p: nat) returns (t: Tree)
    requires ParseValue(text, p).Ok? && ParseValue(text, p).next <= |text| && At(text, p) == '['
    ensures TreeOk(t) && StartsWith(text, p, TreeText(t))
    ensures ParseValue(text, p) == Ok(TreeValue(t), p + |TreeText(t)|)
    decreases Left(text, p), 0
  {
    hide ParseItems, Skip, At, StartsWith, KidsOk, KidsText, KidValues, Left;
    NoWord(text, p);
    CharStands(text, p, '[');
    LeftBehind(text, p, p + 1);
    var q := Skip(text, p + 1);
    SkipForward(text, p + 1);
    if At(text, q) == ']' {
      var blank := SkippedIsBlank(text, p + 1);
      CharStands(text, q, ']');
      Concat(text, p + 1, blank, "]");
      Concat(text, p, "[", blank + "]");
      t := List(blank, []);
      NoKids();
    } else {
      SkipTwice(text, p + 1);
      var kids := ItemsAccept(text, p + 1);
      Concat(text, p, "[", KidsText(kids));
      t := List("", kids);
    }
  }

  lemma NoKids()
    ensures KidsOk([]) && KidValues([]) == [] && PairsOk([]) && PairValues([]) == []
  {
  }

  // How a member was accepted.
  lemma MemberOpened(text: string, p: nat)
    requires ParseMember(text, p).Ok?
    ensures var r := Skip(text, p);
      && At(text, r) == '\"' && ParseString(text, r).Ok?
      && var c := Skip(text, ParseString(text, r).next);
         && p <= r < ParseString(text, r).next <= c < Skip(text, c + 1) && At(text, c) == ':'
         && ParseValue(text, Skip(text, c + 1)).Ok?
         && ParseMember(text, p) ==
              Ok(Member(ParseString(text, r).value, ParseValue(text, Skip(text, c + 1)).value),
                 ParseValue(text, Skip(text, c + 1)).next)
         && Skip(text, c + 1) < ParseMember(text, p).next
  {
    hide ParseValue, Skip, At, ParseChars;
    var r := Skip(text, p);
    SkipForward(text, p);
    MembersForward(text, r);
    SkipForward(text, ParseString(text, r).next);
    var c := Skip(text, ParseString(text, r).next);
    SkipForward(text, c + 1);
    ValueForward(text, Skip(text, c + 1));
  }

  lemma MembersOpened(text: string, p: nat)
    requires ParseMembers(text, p).Ok?
    ensures var m := ParseMember(text, p);
      && m.Ok?
      && var q := Skip(text, m.next);
         && p < m.next <= q < ParseMembers(text, p).next
         && (At(text, q) == '}' || (At(text, q) == ',' && ParseMembers(text, q + 1).Ok?))
         && ParseMembers(text, p) ==
              (if At(text, q) == '}' then Ok([m.value], q + 1)
               else Ok([m.value] + ParseMembers(text, q + 1).value, ParseMembers(text, q + 1).next))
  {
    hide ParseMember, Skip, At;
    var m := ParseMember(text, p);
    MembersForward(text, p);
    SkipForward(text, m.next);
    if At(text, Skip(text, m.next)) == ',' { MembersForward(text, Skip(text, m.next) + 1); }
  }

  // The name, the colon, and the rest.
  lemma NameStands(text: string, p: nat, before: string, name: StringToken, colon: string, rest: string)
    requires StartsWith(text, p, before) && StartsWith(text, p + |before|, TokenText(name))
    requires var q := p + |before| + |TokenText(name)|;
      StartsWith(text, q, colon) && At(text, q + |colon|) == ':' && StartsWith(text, q + |colon| + 1, rest)
    ensures StartsWith(text, p, before + (TokenText(name) + (colon + (":" + rest))))
  {
    hide StartsWith, TokenText, At;
    var s := TokenText(name);
    var q := p + |before| + |s|;
    CharStands(text, q + |colon|, ':');
    Concat(text, q + |colon|, ":", rest);
    Concat(text, q, colon, ":" + rest);
    Concat(text, p + |before|, s, colon + (":" + rest));
    Concat(text, p, before, s + (colon + (":" + rest)));
  }

  function PairText(pair: Pairing, tail: string): string {
    pair.before + (TokenText(pair.name) + (pair.colon + (":" +
      (pair.kid.before + (TreeText(pair.kid.tree) + (pair.kid.after + tail))))))
  }

  predicate PairOk(pair: Pairing) {
    && Blank(pair.before) && AllLooseOk(pair.name.pieces) && Blank(pair.colon)
    && Blank(pair.kid.before) && Blank(pair.kid.after) && TreeOk(pair.kid.tree)
  }

  // One member, with the blanks after it.
  lemma MemberAccepts(text: string, p: nat, tail: string) returns (pair: Pairing)
    requires ParseMember(text, p).Ok? && Skip(text, ParseMember(text, p).next) <= |text|
    requires StartsWith(text, Skip(text, ParseMember(text, p).next), tail)
    ensures PairOk(pair) && StartsWith(text, p, PairText(pair, tail))
    ensures ParseMember(text, p).value == Member(AllAdds(pair.name.pieces), TreeValue(pair.kid.tree))
    ensures Skip(text, ParseMember(text, p).next) + |tail| == p + |PairText(pair, tail)|
    decreases Left(text, p), 2
  {
    hide ParseValue, ParseMember, ParseString, Skip, At, StartsWith, TreeOk, TreeText, TreeValue, Left, AllLooseOk,
         AllAdds, TokenText;
    MemberOpened(text, p);
    SkipForward(text, ParseMember(text, p).next);
    var r := Skip(text, p);
    var before := SkippedIsBlank(text, p);
    var name := StringAccepts(text, r);
    var q := r + |TokenText(name)|;
    var colon := SkippedIsBlank(text, q);
    var c := Skip(text, q);
    var gap := SkippedIsBlank(text, c + 1);
    var v := Skip(text, c + 1);
    LeftBehind(text, p, v);
    var t := ValueAccepts(text, v);
    var after := SkippedIsBlank(text, v + |TreeText(t)|);
    pair := Pairing(before, name, colon, Kid(gap, t, after));
    KidStands(text, c + 1, pair.kid, tail);
    NameStands(text, p, before, name, colon, gap + (TreeText(t) + (after + tail)));
  }

  lemma MembersAccept(text: string, p: nat) returns (pairs: seq<Pairing>)
    requires ParseMembers(text, p).Ok? && ParseMembers(text, p).next <= |text|
    ensures pairs != [] && PairsOk(pairs) && StartsWith(text, p, PairsText(pairs))
    ensures ParseMembers(text, p) == Ok(PairValues(pairs), p + |PairsText(pairs)|)
    decreases Left(text, p), 3
  {
    hide ParseMembers, ParseMember, Skip, At, StartsWith, TreeOk, TreeText, TreeValue, Left, AllLooseOk, AllAdds,
         TokenText;
    MembersOpened(text, p);
    var e := Skip(text, ParseMember(text, p).next);
    if At(text, e) == '}' {
      CharStands(text, e, '}');
      var pair := MemberAccepts(text, p, "}");
      pairs := [pair];
      assert PairValues(pairs) == [ParseMember(text, p).value];
    } else {
      LeftBehind(text, p, e + 1);
      var rest := MembersAccept(text, e + 1);
      CharStands(text, e, ',');
      Concat(text, e, ",", PairsText(rest));
      var pair := MemberAccepts(text, p, "," + PairsText(rest));
      pairs := [pair] + rest;
      assert pairs[1..] == rest;
    }
  }

  lemma RecordAccepts(text: string, p: nat) returns (t: Tree)
    requires ParseValue(text, p).Ok? && ParseValue(text, p).next <= |text| && At(text, p) == '{'
    ensures TreeOk(t) && StartsWith(text, p, TreeText(t))
    ensures ParseValue(text, p) == Ok(TreeValue(t), p + |TreeText(t)|)
    decreases Left(text, p), 0
  {
    hide ParseMembers, Skip, At, StartsWith, PairsOk, PairsText, PairValues, Left;
    NoWord(text, p);
    CharStands(text, p, '{');
    LeftBehind(text, p, p + 1);
    var q := Skip(text, p + 1);
    SkipForward(text, p + 1);
    if At(text, q) == '}' {
      var blank := SkippedIsBlank(text, p + 1);
      CharStands(text, q, '}');
      Concat(text, p + 1, blank, "}");
      Concat(text, p, "{", blank + "}");
      t := Record(blank, []);
      NoKids();
    } else {
      SkipTwice(text, p + 1);
      var pairs := MembersAccept(text, p + 1);
      Concat(text, p, "{", PairsText(pairs));
      t := Record("", pairs);
    }
  }

  // The parser accepts nothing else, and returns the value that the derivation means.
  lemma ValueAccepts(text: string, p: nat) returns (t: Tree)
    requires ParseValue(text, p).Ok? && ParseValue(text, p).next <= |text|
    ensures TreeOk(t) && StartsWith(text, p, TreeText(t))
    ensures ParseValue(text, p) == Ok(TreeValue(t), p + |TreeText(t)|)
    decreases Left(text, p), 1
  {
    hide ParseValue, At, StartsWith, TreeOk, TreeText, TreeValue, Left;
    if At(text, p) == '[' {
      t := ListAccepts(text, p);
    } else if At(text, p) == '{' {
      t := RecordAccepts(text, p);
    } else {
      t := LeafAccepts(text, p);
    }
  }
}
