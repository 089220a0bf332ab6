/**
 JSON texts by the grammar of RFC 8259, with white space wherever it may stand: each of them,
 nested at most 1000 deep, is read as the value it denotes.
 */
module CJsonDocuments {
  import opened CJsonStrings
  import opened CJsonSpellings
  import opened CJsonNumbers
  import opened CJsonDecimals
  import opened CJson
  import opened CJsonRoundTrip

  // ---------------------------------------------------------------- the grammar

  /** White space before and behind an element, and around the colon, is part of the text. */
  datatype Doc =
    | NullDoc
    | BoolDoc(b: bool)
    | StringDoc(xs: seq<Spelled>)
    | NumberDoc(n: Decimal)
    | ArrayDoc(open: string, items: seq<ItemDoc>)
    | ObjectDoc(open: string, members: seq<MemberDoc>)

  datatype ItemDoc = ItemDoc(before: string, value: Doc, after: string)

  datatype MemberDoc =
    MemberDoc(before: string, key: seq<Spelled>, behindKey: string, behindColon: string, value: Doc, after: string)

  predicate Blank(t: string) {
    forall k :: 0 <= k < |t| ==> t[k] in {' ', '\t', '\n', '\r'}
  }

  /** The text follows the grammar; a number has at most 63 characters. `open` stands between
      the brackets when there is nothing else there. */
  ghost predicate WellFormed(doc: Doc)
    decreases doc, 1
  {
    match doc
    case NullDoc => true
    case BoolDoc(_) => true
    case StringDoc(xs) => AllSpell(xs)
    case NumberDoc(n) => Proper(n) && |DecimalText(n)| <= NUMBER_ROOM
    case ArrayDoc(open, items) => Blank(open) && WellFormedItems(items)
    case ObjectDoc(open, members) => Blank(open) && WellFormedMembers(members)
  }

  ghost predicate WellFormedItems(items: seq<ItemDoc>)
    decreases items, 0
  {
    items == []
    || (Blank(items[0].before) && WellFormed(items[0].value) && Blank(items[0].after) && WellFormedItems(items[1..]))
  }

  ghost predicate WellFormedMembers(members: seq<MemberDoc>)
    decreases members, 0
  {
    members == []
    || (var m := members[0];
        && Blank(m.before) && AllSpell(m.key) && Blank(m.behindKey) && Blank(m.behindColon)
        && WellFormed(m.value) && Blank(m.after) && WellFormedMembers(members[1..]))
  }

  function Quoted(xs: seq<Spelled>): string {
    "\"" + LiteralText(xs) + "\""
  }

  function DocText(doc: Doc): string
    decreases doc, 1
  {
    match doc
    case NullDoc => "null"
    case BoolDoc(b) => if b then "true" else "false"
    case StringDoc(xs) => Quoted(xs)
    case NumberDoc(n) => DecimalText(n)
    case ArrayDoc(open, items) => "[" + (if items == [] then open else ElementsText(items)) + "]"
    case ObjectDoc(open, members) => "{" + (if members == [] then open else PairsText(members)) + "}"
  }

  /** What follows a value and its white space: a comma and more, or the closing character. */
  function Following(last: bool, rest: string): string {
    if last then "" else "," + rest
  }

  function ElementsText(items: seq<ItemDoc>): string
    decreases items, 0
  {
    if items == [] then ""
    else
      items[0].before + (DocText(items[0].value)
                         + (items[0].after + Following(|items| == 1, ElementsText(items[1..]))))
  }

  function PairsText(members: seq<MemberDoc>): string
    decreases members, 0
  {
    if members == [] then ""
    else
      var m := members[0];
      NameText(m) + (DocText(m.value)
                     + (m.after + Following(|members| == 1, PairsText(members[1..]))))
  }

  function NameText(m: MemberDoc): string {
    m.before + (Quoted(m.key) + (m.behindKey + (":" + m.behindColon)))
  }

  // ---------------------------------------------------------------- what it denotes

  /** Strings end at their first NUL, and a number's int is the double cut off and saturated. */
  function DocValue(doc: Doc): Json
    decreases doc, 1
  {
    match doc
    case NullDoc => Null
    case BoolDoc(b) => Bool(b)
    case StringDoc(xs) => Str(CString(LiteralString(xs)))
    case NumberDoc(n) => Number(Saturated(DecimalValue(n)), DecimalValue(n))
    case ArrayDoc(_, items) => Array(ElementValues(items))
    case ObjectDoc(_, members) => Object(PairValues(members))
  }

  function ElementValues(items: seq<ItemDoc>): seq<Json>
    decreases items, 0
  {
    if items == [] then [] else [DocValue(items[0].value)] + ElementValues(items[1..])
  }

  function PairValues(members: seq<MemberDoc>): seq<Member>
    decreases members, 0
  {
    if members == [] then []
    else
      [Member(CString(LiteralString(members[0].key)), DocValue(members[0].value))] + PairValues(members[1..])
  }

  // ---------------------------------------------------------------- pieces

  lemma BlankIsWhite(t: string)
    requires Blank(t)
    ensures White(t) && (t != "" ==> !NumberChar(t[0]))
  {
  }

  /** White space up to something visible. */
  lemma SkipBlank(c: string, p: nat, t: string)
    requires Blank(t) && TextAt(c, p, t) && p + |t| < |c| && c[p + |t|] as int > 32
    ensures SkipWhite(c, p) == p + |t|
  {
    BlankIsWhite(t);
    SkipText(c, p, t);
  }

  /** White space up to a character at which a number stops. */
  lemma StopsAtBlank(c: string, p: nat, t: string)
    requires Blank(t) && TextAt(c, p, t) && NumberStops(c, p + |t|)
    ensures NumberStops(c, p)
  {
    if t != "" {
      BlankIsWhite(t);
      HeadAt(c, p, t);
    }
  }

  lemma DocStarts(doc: Doc)
    requires WellFormed(doc)
    ensures DocText(doc) != "" && ValueStart(DocText(doc)[0])
  {
    if doc.NumberDoc? {
      DecimalChars(doc.n);
    }
  }

  lemma FollowingAt(c: string, e: nat, last: bool, rest: string, close: char)
    requires TextAt(c, e, Following(last, rest)) && close in {']', '}'}
    requires var end := e + |Following(last, rest)|; end < |c| && c[end] == close
    ensures c[e] == (if last then close else ',') && c[e] as int > 32 && !NumberChar(c[e])
    ensures !last ==> TextAt(c, e + 1, rest)
  {
    if !last {
      HeadAt(c, e, Following(last, rest));
      TextTail(c, e, ",", rest);
    }
  }

  lemma StartVisible(ch: char)
    requires ValueStart(ch)
    ensures ch as int > 32 && ch !in {']', '}', ','}
  {
  }

  /** What stands before, in and behind a value. */
  lemma ValuePieces(c: string, q: nat, doc: Doc, after: string, last: bool, rest: string, close: char)
    requires WellFormed(doc) && Blank(after) && TextAt(c, q, DocText(doc) + (after + Following(last, rest)))
    requires close in {']', '}'}
    requires var end := q + |DocText(doc)| + |after| + |Following(last, rest)|; end < |c| && c[end] == close
    ensures var vend := q + |DocText(doc)|; var e := vend + |after|;
            && TextAt(c, q, DocText(doc)) && ValueStart(c[q])
            && NumberStops(c, vend) && vend <= |c| && SkipWhite(c, vend) == e
            && e < |c| && c[e] == (if last then close else ',') && (!last ==> TextAt(c, e + 1, rest))
  {
    hide WellFormed, DocText, TextAt, SkipWhite, Blank, ValueStart, Following;
    TextTail(c, q, DocText(doc), after + Following(last, rest));
    TextTail(c, q + |DocText(doc)|, after, Following(last, rest));
    FollowingAt(c, q + |DocText(doc)| + |after|, last, rest, close);
    DocStarts(doc);
    HeadAt(c, q, DocText(doc));
    SkipBlank(c, q + |DocText(doc)|, after);
    StopsAtBlank(c, q + |DocText(doc)|, after);
  }

  // ---------------------------------------------------------------- reading

  /** A well-formed text is read as its value, and wholly consumed, if it is not nested too
      deep; it is refused if it is. */
  lemma {:induction false} DocRead(c: string, i: nat, doc: Doc, d: nat)
    requires WellFormed(doc) && TextAt(c, i, DocText(doc)) && NumberStops(c, i + |DocText(doc)|)
    requires d <= NESTING_LIMIT
    ensures ParseValue(c, i, d) == Within(Nesting(DocValue(doc)), d, DocValue(doc), i + |DocText(doc)|)
    decreases doc, 1
  {
    hide ParseValue, ElementsText, PairsText, ElementValues, PairValues, TextAt, NumberStops, DecimalText, Quoted;
    match doc
    case NullDoc => WordTrip(c, i, d);
    case BoolDoc(_) => WordTrip(c, i, d);
    case StringDoc(xs) => StringRead(c, i, xs, d);
    case NumberDoc(n) => DecimalRead(c, i, n, d);
    case ArrayDoc(open, items) => ArrayRead(c, i, open, items, d);
    case ObjectDoc(open, members) => ObjectRead(c, i, open, members, d);
  }

  lemma StringRead(c: string, i: nat, xs: seq<Spelled>, d: nat)
    requires AllSpell(xs) && TextAt(c, i, Quoted(xs))
    ensures ParseValue(c, i, d) == Parsed(Str(CString(LiteralString(xs))), i + |Quoted(xs)|)
  {
    hide AllSpell, ParseString, LiteralText, LiteralString;
    HeadAt(c, i, Quoted(xs));
    WordsApart(c, i, '\"');
    SpellingRead(c, i, xs);
  }

  lemma {:induction false} ArrayRead(c: string, i: nat, open: string, items: seq<ItemDoc>, d: nat)
    requires Blank(open) && WellFormedItems(items) && d <= NESTING_LIMIT
    requires TextAt(c, i, "[" + (if items == [] then open else ElementsText(items)) + "]")
    ensures var values := ElementValues(items);
            ParseValue(c, i, d) == Within(1 + NestingItems(values), d, Array(values),
                                          i + |if items == [] then open else ElementsText(items)| + 2)
    decreases items, 2
  {
    hide ParseValue, ParseItems, ElementsText, WellFormed, SkipWhite, TextAt;
    var body := if items == [] then open else ElementsText(items);
    var end := i + |body| + 2;
    BracketsAt(c, i, body);
    if items == [] {
      SkipBlank(c, i + 1, open);
      assert ElementValues(items) == [];
    } else if d < NESTING_LIMIT {
      ElementsRead(c, i + 1, items, d + 1);
      StartVisible(c[SkipWhite(c, i + 1)]);
      SkipThenItems(c, i + 1, d + 1);
    }
    ArrayTrip(c, i, ElementValues(items), NestingItems(ElementValues(items)), end, d);
  }

  /** Where the first element is, and what comes behind it. */
  lemma FirstElement(c: string, p: nat, items: seq<ItemDoc>)
    requires items != [] && WellFormedItems(items) && TextAt(c, p, ElementsText(items))
    requires var end := p + |ElementsText(items)|; end < |c| && c[end] == ']'
    ensures var m := items[0]; var q := p + |m.before|; var vend := q + |DocText(m.value)|; var e := vend + |m.after|;
            && p <= |c| && SkipWhite(c, p) == q && q < |c| && ValueStart(c[q])
            && TextAt(c, q, DocText(m.value)) && NumberStops(c, vend)
            && vend <= |c| && SkipWhite(c, vend) == e && e < |c| && c[e] == (if |items| == 1 then ']' else ',')
            && (|items| > 1 ==> TextAt(c, e + 1, ElementsText(items[1..])))
            && p + |ElementsText(items)| == e + if |items| == 1 then 0 else 1 + |ElementsText(items[1..])|
  {
    hide *;
    var m := items[0];
    var last, rest := |items| == 1, ElementsText(items[1..]);
    ElementsUnfold(items);
    TextTail(c, p, m.before, DocText(m.value) + (m.after + Following(last, rest)));
    ValuePieces(c, p + |m.before|, m.value, m.after, last, rest, ']');
    StartVisible(c[p + |m.before|]);
    TextFits(c, p, m.before);
    SkipBlank(c, p, m.before);
  }

  lemma ElementsUnfold(items: seq<ItemDoc>)
    requires items != [] && WellFormedItems(items)
    ensures var m := items[0]; var next := Following(|items| == 1, ElementsText(items[1..]));
            && Blank(m.before) && WellFormed(m.value) && Blank(m.after)
            && (|items| > 1 ==> WellFormedItems(items[1..]))
            && ElementsText(items) == m.before + (DocText(m.value) + (m.after + next))
            && |next| == if |items| == 1 then 0 else 1 + |ElementsText(items[1..])|
  {
    hide DocText, WellFormed, Blank;
  }

  /** The elements, with all their white space. */
  lemma {:induction false} ElementsRead(c: string, p: nat, items: seq<ItemDoc>, d: nat)
    requires items != [] && WellFormedItems(items) && d <= NESTING_LIMIT && TextAt(c, p, ElementsText(items))
    requires var end := p + |ElementsText(items)|; end < |c| && c[end] == ']'
    ensures var values := ElementValues(items);
            && p <= |c| && SkipWhite(c, p) < |c| && ValueStart(c[SkipWhite(c, p)])
            && ParseItems(c, p, d) == Within(NestingItems(values), d, values, p + |ElementsText(items)| + 1)
    decreases items, 0
  {
    hide WellFormed, DocText, SkipWhite, Blank, ValueStart, NumberStops, ParseValue, ParseItems, ElementsText, TextAt,
         NestingItems;
    FirstElement(c, p, items);
    var m, values := items[0], ElementValues(items);
    var q := p + |m.before|;
    var vend := q + |DocText(m.value)|;
    var e := vend + |m.after|;
    DocRead(c, q, m.value, d);
    assert values[1..] == ElementValues(items[1..]);
    if |items| == 1 {
      LastItem(c, p, q, values, vend, e, d);
    } else {
      ElementsRead(c, e + 1, items[1..], d);
      MoreItems(c, p, q, values, vend, e, p + |ElementsText(items)| + 1, d);
    }
  }

  /** White space before the first element may be skipped or not. */
  lemma SkipThenItems(c: string, p: nat, d: nat)
    requires p <= |c| && SkipWhite(c, p) < |c| && c[SkipWhite(c, p)] as int > 32
    ensures ParseItems(c, SkipWhite(c, p), d) == ParseItems(c, p, d)
  {
    SkipStays(c, SkipWhite(c, p));
    hide ParseValue, SkipWhite;
  }

  lemma SkipThenName(c: string, p: nat)
    requires p <= |c| && SkipWhite(c, p) < |c| && c[SkipWhite(c, p)] as int > 32
    ensures ParseName(c, SkipWhite(c, p)) == ParseName(c, p)
  {
    SkipStays(c, SkipWhite(c, p));
    hide SkipWhite, ParseString;
  }

  /** And before the first member. */
  lemma SkipThenMembers(c: string, p: nat, d: nat)
    requires p <= |c| && SkipWhite(c, p) < |c| && c[SkipWhite(c, p)] as int > 32
    ensures ParseMembers(c, SkipWhite(c, p), d) == ParseMembers(c, p, d)
  {
    hide ParseValue, SkipWhite, ParseName;
    SkipThenName(c, p);
  }

  lemma {:induction false} ObjectRead(c: string, i: nat, open: string, members: seq<MemberDoc>, d: nat)
    requires Blank(open) && WellFormedMembers(members) && d <= NESTING_LIMIT
    requires TextAt(c, i, "{" + (if members == [] then open else PairsText(members)) + "}")
    ensures var values := PairValues(members);
            ParseValue(c, i, d) == Within(1 + NestingMembers(values), d, Object(values),
                                          i + |if members == [] then open else PairsText(members)| + 2)
    decreases members, 2
  {
    hide ParseValue, ParseMembers, PairsText, WellFormedMembers, Blank, SkipWhite, TextAt;
    var body := if members == [] then open else PairsText(members);
    BracesAround(c, i, body);
    if members == [] {
      SkipBlank(c, i + 1, open);
    } else if d < NESTING_LIMIT {
      PairsRead(c, i + 1, members, d + 1);
      SkipThenMembers(c, i + 1, d + 1);
    }
    ObjectTrip(c, i, PairValues(members), NestingMembers(PairValues(members)), i + |body| + 2, d);
  }

  lemma BracesAround(c: string, i: nat, body: string)
    requires TextAt(c, i, "{" + body + "}")
    ensures TextAt(c, i + 1, body) && i + 1 + |body| < |c| && c[i] == '{' && c[i + 1 + |body|] == '}'
  {
    TextTail(c, i, "{" + body, "}");
    TextTail(c, i, "{", body);
    CharAt(c, i, '{');
    CharAt(c, i + 1 + |body|, '}');
  }

  /** A name begins behind the white space at `p`, and its value at `v`. */
  ghost predicate NamedAt(c: string, p: nat, key: string, v: nat) {
    && p <= |c| && SkipWhite(c, p) < |c| && c[SkipWhite(c, p)] == '\"'
    && var name := ParseName(c, p);
       name.Parsed? && name.value == key && SkipWhite(c, name.offset) == v
  }

  /** The name of a member, with the white space around it and around the colon. */
  lemma NameRead(c: string, p: nat, m: MemberDoc)
    requires Blank(m.before) && AllSpell(m.key) && Blank(m.behindKey) && Blank(m.behindColon)
    requires TextAt(c, p, NameText(m))
    requires var v := p + |NameText(m)|; v < |c| && c[v] as int > 32
    ensures NamedAt(c, p, CString(LiteralString(m.key)), p + |NameText(m)|)
  {
    hide AllSpell, ParseString, SkipWhite, Blank, TextAt, Quoted, LiteralString, CString;
    var k := p + |m.before|;
    var colon := k + |Quoted(m.key)| + |m.behindKey|;
    NamePieces(c, p, m);
    hide NameText;
    QuotedAt(c, k, m.key);
    SkipBlank(c, p, m.before);
    SkipBlank(c, k + |Quoted(m.key)|, m.behindKey);
    SkipBlank(c, colon + 1, m.behindColon);
  }

  lemma NamePieces(c: string, p: nat, m: MemberDoc)
    requires TextAt(c, p, NameText(m))
    ensures var k := p + |m.before|; var end := k + |Quoted(m.key)|; var colon := end + |m.behindKey|;
            && TextAt(c, p, m.before) && TextAt(c, k, Quoted(m.key)) && TextAt(c, end, m.behindKey)
            && colon < |c| && c[colon] == ':' && TextAt(c, colon + 1, m.behindColon)
            && p + |NameText(m)| == colon + 1 + |m.behindColon|
  {
    hide TextAt, Quoted;
    var key := Quoted(m.key);
    var k := p + |m.before|;
    TextTail(c, p, m.before, key + (m.behindKey + (":" + m.behindColon)));
    TextTail(c, k, key, m.behindKey + (":" + m.behindColon));
    TextTail(c, k + |key|, m.behindKey, ":" + m.behindColon);
    TextTail(c, k + |key| + |m.behindKey|, ":", m.behindColon);
    CharAt(c, k + |key| + |m.behindKey|, ':');
  }

  lemma QuotedAt(c: string, k: nat, xs: seq<Spelled>)
    requires AllSpell(xs) && TextAt(c, k, Quoted(xs))
    ensures k < |c| && c[k] == '\"'
    ensures ParseString(c, k) == Parsed(CString(LiteralString(xs)), k + |Quoted(xs)|)
  {
    hide AllSpell, ParseString, LiteralText, LiteralString;
    HeadAt(c, k, Quoted(xs));
    SpellingRead(c, k, xs);
  }

  lemma PairsUnfold(members: seq<MemberDoc>)
    requires members != [] && WellFormedMembers(members)
    ensures var m := members[0];
            && Blank(m.before) && AllSpell(m.key) && Blank(m.behindKey) && Blank(m.behindColon)
            && WellFormed(m.value) && Blank(m.after)
    ensures var m := members[0]; var next := Following(|members| == 1, PairsText(members[1..]));
            && PairsText(members) == NameText(m) + (DocText(m.value) + (m.after + next))
            && |next| == if |members| == 1 then 0 else 1 + |PairsText(members[1..])|
  {
    hide DocText, NameText, WellFormed, AllSpell, Blank;
  }

  /** Where the first member is, and what comes behind it. */
  lemma FirstPair(c: string, p: nat, members: seq<MemberDoc>)
    requires members != [] && WellFormedMembers(members) && TextAt(c, p, PairsText(members))
    requires var end := p + |PairsText(members)|; end < |c| && c[end] == '}'
    ensures var m := members[0]; var v := p + |NameText(m)|;
            var vend := v + |DocText(m.value)|; var e := vend + |m.after|;
            && NamedAt(c, p, CString(LiteralString(m.key)), v)
            && TextAt(c, v, DocText(m.value)) && NumberStops(c, vend)
            && vend <= |c| && SkipWhite(c, vend) == e && e < |c| && c[e] == (if |members| == 1 then '}' else ',')
            && (|members| > 1 ==> TextAt(c, e + 1, PairsText(members[1..])))
            && p + |PairsText(members)| == e + if |members| == 1 then 0 else 1 + |PairsText(members[1..])|
  {
    hide *;
    var m := members[0];
    var last, rest := |members| == 1, PairsText(members[1..]);
    PairsUnfold(members);
    TextTail(c, p, NameText(m), DocText(m.value) + (m.after + Following(last, rest)));
    var v := p + |NameText(m)|;
    ValuePieces(c, v, m.value, m.after, last, rest, '}');
    StartVisible(c[v]);
    NameRead(c, p, m);
  }

  /** The members, with all their white space. */
  lemma {:induction false} PairsRead(c: string, p: nat, members: seq<MemberDoc>, d: nat)
    requires members != [] && WellFormedMembers(members) && d <= NESTING_LIMIT && TextAt(c, p, PairsText(members))
    requires var end := p + |PairsText(members)|; end < |c| && c[end] == '}'
    ensures var values := PairValues(members);
            && p <= |c| && SkipWhite(c, p) < |c| && c[SkipWhite(c, p)] == '\"'
            && ParseMembers(c, p, d) == Within(NestingMembers(values), d, values, p + |PairsText(members)| + 1)
    decreases members, 0
  {
    hide WellFormed, DocText, SkipWhite, Blank, NumberStops, ParseValue, ParseName, ParseMembers, PairsText, TextAt,
         NameText, NestingMembers, AllSpell, CString, LiteralString;
    FirstPair(c, p, members);
    var m, values := members[0], PairValues(members);
    var v := p + |NameText(m)|;
    var vend := v + |DocText(m.value)|;
    var e := vend + |m.after|;
    DocRead(c, v, m.value, d);
    assert values[1..] == PairValues(members[1..]);
    if |members| == 1 {
      LastMember(c, p, values, v, vend, e, d);
    } else {
      PairsRead(c, e + 1, members[1..], d);
      ManyMembers(c, p, values, v, vend, e, p + |PairsText(members)| + 1, d);
    }
  }

  // ---------------------------------------------------------------- the theorem

  const BOM: string := [0xEF as char, 0xBB as char, 0xBF as char]

  /** `cJSON_Parse` reads every JSON text, with or without a byte order mark before it, and
      whatever does not continue a number behind it. */
  lemma DocumentRead(bom: string, before: string, doc: Doc, rest: string)
    requires bom in {"", BOM} && Blank(before) && WellFormed(doc) && (rest != "" ==> !NumberChar(rest[0]))
    ensures var value := DocValue(doc);
            Parse(bom + (before + (DocText(doc) + rest))) ==
              if Nesting(value) <= NESTING_LIMIT then Parsed(value, |bom| + |before| + |DocText(doc)|) else Failed
  {
    hide WellFormed, DocText, DocValue, Blank, SkipWhite, ParseValue, TextAt, ValueStart, SkipBom;
    var c := bom + (before + (DocText(doc) + rest)) + "\0";
    var i := |bom|;
    var q := i + |before|;
    DocumentPieces(c, bom, before, DocText(doc), rest);
    DocStarts(doc);
    HeadAt(c, q, DocText(doc));
    StartVisible(c[q]);
    SkipBlank(c, i, before);
    FirstChar(c, before, q);
    BomAt(c, bom);
    DocRead(c, q, doc, 0);
  }

  lemma DocumentPieces(c: string, bom: string, before: string, text: string, rest: string)
    requires c == bom + (before + (text + rest)) + "\0" && (rest != "" ==> !NumberChar(rest[0]))
    ensures TextAt(c, 0, bom) && TextAt(c, |bom|, before) && TextAt(c, |bom| + |before|, text)
    ensures NumberStops(c, |bom| + |before| + |text|)
  {
    hide TextAt, NumberStops, NumberChar;
    WholeAt(c, bom + (before + (text + rest)));
    TextTail(c, 0, bom, before + (text + rest));
    TextTail(c, |bom|, before, text + rest);
    TextTail(c, |bom| + |before|, text, rest);
    StopsBehind(c, |bom| + |before| + |text|, rest);
  }

  lemma StopsBehind(c: string, n: nat, rest: string)
    requires TextAt(c, n, rest) && (rest != "" ==> !NumberChar(rest[0]))
    requires n + |rest| < |c| && c[n + |rest|] == '\0'
    ensures NumberStops(c, n)
  {
    if rest != "" {
      HeadAt(c, n, rest);
    }
  }

  lemma WholeAt(c: string, text: string)
    requires c == text + "\0"
    ensures TextAt(c, 0, text) && |text| < |c| && c[|text|] == '\0'
  {
    assert c[0..|text|] == text;
  }

  /** No text begins like a byte order mark. */
  lemma FirstChar(c: string, before: string, q: nat)
    requires Blank(before) && q < |c| && ValueStart(c[q]) && (q == |before| ==> TextAt(c, 0, before))
    ensures q == |before| ==> c[0] as int != 0xEF
  {
    if q == |before| && before != "" {
      HeadAt(c, 0, before);
    }
  }

  lemma BomAt(c: string, bom: string)
    requires bom in {"", BOM} && TextAt(c, 0, bom)
    requires if bom == "" then c != "" && c[0] as int != 0xEF else |c| > 4
    ensures SkipBom(c) == |bom|
  {
    if bom != "" {
      assert c[0] == c[0..3][0] && c[1] == c[0..3][1] && c[2] == c[0..3][2];
    }
  }
}
