/**
 What cJSON prints, cJSON reads back: the same ordered tree, and all of the text, formatted or
 not, as long as the nesting stays within the parser's limit; and beyond it nothing is read.
 */
module CJsonRoundTrip {
  import opened CJsonStrings
  import opened CJsonNumbers
  import opened CJson

  /** The outcome of parsing something that was printed. */
  function Within<T>(nesting: nat, d: nat, value: T, offset: nat): Parsed<T> {
    if d + nesting <= NESTING_LIMIT then Parsed(value, offset) else Failed
  }

  /** A number ends here. */
  ghost predicate NumberStops(c: string, i: nat) {
    i < |c| && !NumberChar(c[i])
  }

  /** The characters a printed value can begin with. */
  predicate ValueStart(ch: char) {
    ch in {'n', 't', 'f', '\"', '[', '{', '-'} || '0' <= ch <= '9'
  }

  lemma PrintStarts(v: Json, fmt: bool, d: nat)
    ensures var t := Print(v, fmt, d); t != "" && ValueStart(t[0])
  {
    if v.Str? {
      assert PrintString(v.s)[0] == '\"';
    }
  }

  lemma HeadAt(c: string, i: nat, t: string)
    requires TextAt(c, i, t) && t != ""
    ensures i < |c| && c[i] == t[0]
  {
    assert c[i..i + |t|][0] == t[0];
  }

  lemma TextJoin(c: string, i: nat, a: string, b: string)
    requires TextAt(c, i, a) && TextAt(c, i + |a|, b)
    ensures TextAt(c, i, a + b)
  {
    assert c[i..i + |a + b|] == c[i..i + |a|] + c[i + |a|..i + |a| + |b|];
  }

  /** Skipping white space up to a visible character. */
  lemma SkipTo(c: string, p: nat, q: nat)
    requires p <= q < |c| && c[q] as int > 32
    requires forall k :: p <= k < q ==> c[k] as int <= 32
    ensures SkipWhite(c, p) == q
  {
    WhiteTo(c, p, q);
  }

  lemma {:induction false} WhiteTo(c: string, p: nat, q: nat)
    requires p <= q < |c| && c[q] as int > 32
    requires forall k :: p <= k < q ==> c[k] as int <= 32
    ensures WhiteEnd(c, p) == q
    decreases q - p
  {
    if p < q {
      WhiteTo(c, p + 1, q);
    }
  }

  lemma SkipStays(c: string, p: nat)
    requires p < |c| && c[p] as int > 32
    ensures SkipWhite(c, p) == p
  {
  }

  ghost predicate White(t: string) {
    forall k :: 0 <= k < |t| ==> t[k] as int <= 32
  }

  /** White text followed by a visible character. */
  lemma SkipText(c: string, p: nat, t: string)
    requires TextAt(c, p, t) && White(t) && p + |t| < |c| && c[p + |t|] as int > 32
    ensures SkipWhite(c, p) == p + |t|
  {
    forall k | p <= k < p + |t|
      ensures c[k] as int <= 32
    {
      assert c[p..p + |t|][k - p] == t[k - p];
    }
    SkipTo(c, p, p + |t|);
  }

  // ---------------------------------------------------------------- scalars

  lemma WordsApart(c: string, i: nat, ch: char)
    requires i < |c| && c[i] == ch && ch !in {'n', 't', 'f'}
    ensures !Reads(c, i, "null") && !Reads(c, i, "false") && !Reads(c, i, "true")
  {
    if Reads(c, i, "null") { HeadAt(c, i, "null"); }
    if Reads(c, i, "false") { HeadAt(c, i, "false"); }
    if Reads(c, i, "true") { HeadAt(c, i, "true"); }
  }

  lemma NumberTrip(c: string, i: nat, n: int, d: nat)
    requires INT_MIN <= n <= INT_MAX && TextAt(c, i, IntText(n)) && NumberStops(c, i + |IntText(n)|)
    ensures ParseValue(c, i, d) == Parsed(Number(n, n as real), i + |IntText(n)|)
  {
    hide ReadDouble, Saturated, NumberSpan;
    var t := IntText(n);
    HeadAt(c, i, t);
    WordsApart(c, i, t[0]);
    IntTextShort(n);
    SpanOfText(c, i, t);
    IntRoundTrip(n);
    SaturatedInt(n);
  }

  lemma StringTrip(c: string, i: nat, s: string, d: nat)
    requires NulFree(s) && TextAt(c, i, PrintString(s))
    ensures ParseValue(c, i, d) == Parsed(Str(s), i + |PrintString(s)|)
  {
    HeadAt(c, i, PrintString(s));
    WordsApart(c, i, '\"');
    StringRoundTrip(c, i, s);
  }

  lemma WordTrip(c: string, i: nat, d: nat)
    ensures TextAt(c, i, "null") ==> ParseValue(c, i, d) == Parsed(Null, i + 4)
    ensures TextAt(c, i, "false") ==> ParseValue(c, i, d) == Parsed(Bool(false), i + 5)
    ensures TextAt(c, i, "true") ==> ParseValue(c, i, d) == Parsed(Bool(true), i + 4)
  {
    if TextAt(c, i, "null") { HeadAt(c, i, "null"); }
    if TextAt(c, i, "false") { HeadAt(c, i, "false"); }
    if TextAt(c, i, "true") { HeadAt(c, i, "true"); }
  }

  // ---------------------------------------------------------------- trees

  lemma {:induction false} ValueTrip(c: string, i: nat, v: Json, fmt: bool, d: nat)
    requires Printable(v) && TextAt(c, i, Print(v, fmt, d)) && NumberStops(c, i + |Print(v, fmt, d)|)
    requires d <= NESTING_LIMIT
    ensures ParseValue(c, i, d) == Within(Nesting(v), d, v, i + |Print(v, fmt, d)|)
    decreases v, 1
  {
    hide ParseValue, PrintItems, PrintMembers, TextAt, NumberStops, PrintString, IntText;
    match v
    case Null => WordTrip(c, i, d);
    case Bool(b) => WordTrip(c, i, d);
    case Number(n, _) => NumberTrip(c, i, n, d);
    case Str(s) => StringTrip(c, i, s, d);
    case Array(items) => ArrayCase(c, i, items, PrintItems(items, fmt, d + 1), fmt, d);
    case Object(members) =>
      ObjectCase(c, i, members, OpenBrace(fmt), PrintMembers(members, fmt, d + 1), if fmt then Tabs(d) else "", fmt, d);
  }

  lemma {:induction false} ArrayCase(c: string, i: nat, items: seq<Json>, body: string, fmt: bool, d: nat)
    requires PrintableItems(items) && body == PrintItems(items, fmt, d + 1) && d <= NESTING_LIMIT
    requires TextAt(c, i, "[" + body + "]")
    ensures ParseValue(c, i, d) == Within(1 + NestingItems(items), d, Array(items), i + |body| + 2)
    decreases items, 2
  {
    hide Print, ParseValue, ParseItems;
    BracketsAt(c, i, body);
    if d < NESTING_LIMIT && items != [] {
      ItemsStart(items, fmt, d + 1);
      HeadAt(c, i + 1, body);
      ItemsTrip(c, i + 1, i + 1, items, body, fmt, d + 1);
    }
    ArrayTrip(c, i, items, NestingItems(items), i + |body| + 2, d);
  }

  lemma {:induction false} ObjectCase(c: string, i: nat, members: seq<Member>, open: string, body: string, tabs: string,
                                      fmt: bool, d: nat)
    requires PrintableMembers(members) && body == PrintMembers(members, fmt, d + 1) && d <= NESTING_LIMIT
    requires open == OpenBrace(fmt) && White(tabs) && TextAt(c, i, open + body + tabs + "}")
    ensures ParseValue(c, i, d) ==
            Within(1 + NestingMembers(members), d, Object(members), i + |open| + |body| + |tabs| + 1)
    decreases members, 2
  {
    hide Print, PrintKey, ParseValue, ParseMembers, TextAt, White;
    KeyFirst(members, fmt, d + 1);
    BracesAt(c, i, open, body, tabs);
    if d < NESTING_LIMIT && members != [] {
      FirstName(c, i, open, members[0], fmt, d + 1, body);
      MembersTrip(c, SkipWhite(c, i + 1), i + |open|, members, body, fmt, d + 1, tabs);
    }
    if members == [] {
      OpenThen(c, i, open, tabs);
    }
    ObjectTrip(c, i, members, NestingMembers(members), i + |open| + |body| + |tabs| + 1, d);
  }

  lemma KeyFirst(members: seq<Member>, fmt: bool, d: nat)
    ensures if members == [] then PrintMembers(members, fmt, d) == ""
            else PrintKey(members[0].key, fmt, d) <= PrintMembers(members, fmt, d)
  {
    hide Print, PrintKey;
  }

  lemma BracketsAt(c: string, i: nat, body: string)
    requires TextAt(c, i, "[" + body + "]")
    ensures TextAt(c, i + 1, body) && i + 1 + |body| < |c| && c[i] == '[' && c[i + 1 + |body|] == ']'
  {
    TextTail(c, i, "[" + body, "]");
    TextTail(c, i, "[", body);
    CharAt(c, i, '[');
    CharAt(c, i + 1 + |body|, ']');
  }

  lemma BracesAt(c: string, i: nat, open: string, body: string, tabs: string)
    requires open in {"{", "{\n"} && TextAt(c, i, open + body + tabs + "}")
    ensures TextAt(c, i, open) && TextAt(c, i + |open|, body) && TextAt(c, i + |open| + |body|, tabs)
    ensures var e := i + |open| + |body| + |tabs|; e < |c| && c[i] == '{' && c[e] == '}'
  {
    TextTail(c, i, open + body + tabs, "}");
    TextTail(c, i, open + body, tabs);
    TextTail(c, i, open, body);
    HeadAt(c, i, open);
    CharAt(c, i + |open| + |body| + |tabs|, '}');
  }

  /** An array, once its elements are accounted for. */
  lemma ArrayTrip(c: string, i: nat, items: seq<Json>, nesting: nat, end: nat, d: nat)
    requires i < |c| && c[i] == '[' && d <= NESTING_LIMIT
    requires items == [] ==> nesting == 0 && (d < NESTING_LIMIT ==> Closed(c, i, ']', end))
    requires items != [] && d < NESTING_LIMIT ==>
               var j := SkipWhite(c, i + 1);
               && j < |c| && c[j] != ']'
               && ParseItems(c, j, d + 1) == Within(nesting, d + 1, items, end)
    ensures ParseValue(c, i, d) == Within(1 + nesting, d, Array(items), end)
  {
    hide ParseItems, SkipWhite;
    WordsApart(c, i, '[');
  }

  /** Only white space up to the closing character. */
  ghost predicate Closed(c: string, i: nat, close: char, end: nat)
    requires i < |c|
  {
    var j := SkipWhite(c, i + 1);
    j < |c| && c[j] == close && end == j + 1
  }

  /** An object, once its members are accounted for. */
  lemma ObjectTrip(c: string, i: nat, members: seq<Member>, nesting: nat, end: nat, d: nat)
    requires i < |c| && c[i] == '{' && d <= NESTING_LIMIT
    requires members == [] ==> nesting == 0 && (d < NESTING_LIMIT ==> Closed(c, i, '}', end))
    requires members != [] && d < NESTING_LIMIT ==>
               var j := SkipWhite(c, i + 1);
               && j < |c| && c[j] != '}'
               && ParseMembers(c, j, d + 1) == Within(nesting, d + 1, members, end)
    ensures ParseValue(c, i, d) == Within(1 + nesting, d, Object(members), end)
  {
    hide ParseMembers, SkipWhite;
    WordsApart(c, i, '{');
  }

  lemma ItemsStart(items: seq<Json>, fmt: bool, d: nat)
    requires items != []
    ensures var t := PrintItems(items, fmt, d); t != "" && ValueStart(t[0])
  {
    PrintStarts(items[0], fmt, d);
  }

  /** One element and what follows it. */
  lemma ItemStep(c: string, p: nat, q: nat, d: nat, v: Json, nesting: nat, vend: nat, e: nat)
    requires p <= |c| && SkipWhite(c, p) == q && vend <= |c| && SkipWhite(c, vend) == e
    requires e < |c| && c[e] in {',', ']'}
    requires ParseValue(c, q, d) == Within(nesting, d, v, vend)
    ensures var rest := ParseItems(c, e + 1, d);
            ParseItems(c, p, d) ==
              if d + nesting > NESTING_LIMIT then Failed
              else if c[e] == ']' then Parsed([v], e + 1)
              else if rest.Failed? then Failed
              else Parsed([v] + rest.value, rest.offset)
  {
    hide ParseValue;
  }

  /** Where one element and the next ones are. */
  lemma ItemPieces(c: string, q: nat, t: string, rest: string, fmt: bool)
    requires TextAt(c, q, t + (Comma(fmt) + rest)) && rest != "" && rest[0] as int > 32
    ensures TextAt(c, q, t) && TextAt(c, q + |t| + |Comma(fmt)|, rest)
    ensures var e := q + |t|;
            NumberStops(c, e) && c[e] == ',' && SkipWhite(c, e) == e && SkipWhite(c, e + 1) == e + |Comma(fmt)|
  {
    var e := q + |t|;
    TextTail(c, q, t, Comma(fmt) + rest);
    TextTail(c, e, Comma(fmt), rest);
    HeadAt(c, e, Comma(fmt));
    HeadAt(c, e + |Comma(fmt)|, rest);
    AfterComma(c, e, fmt);
  }

  lemma ItemsUnfold(items: seq<Json>, fmt: bool, d: nat)
    requires |items| > 1
    ensures PrintItems(items, fmt, d) == Print(items[0], fmt, d) + (Comma(fmt) + PrintItems(items[1..], fmt, d))
  {
    hide Print, Comma;
  }

  /** Where the first of several elements, and the rest of them, are. */
  lemma ItemsText(c: string, q: nat, items: seq<Json>, body: string, fmt: bool, d: nat)
    requires |items| > 1 && body == PrintItems(items, fmt, d) && TextAt(c, q, body)
    requires q + |body| < |c| && c[q + |body|] == ']'
    ensures items[1..] != []
    ensures var t, rest := Print(items[0], fmt, d), PrintItems(items[1..], fmt, d); var e := q + |t|;
            && |body| == |t| + |Comma(fmt)| + |rest|
            && TextAt(c, q, t) && TextAt(c, e + |Comma(fmt)|, rest)
            && NumberStops(c, e) && c[e] == ',' && SkipWhite(c, e + 1) == e + |Comma(fmt)|
            && e + |Comma(fmt)| + |rest| < |c| && c[e + |Comma(fmt)| + |rest|] == ']'
  {
    var tail := items[1..];
    ItemsUnfold(items, fmt, d);
    ItemsStart(tail, fmt, d);
    hide Print, PrintItems, Comma, SkipWhite, TextAt, NumberStops, ValueStart;
    TextOfItems(c, q, Print(items[0], fmt, d), PrintItems(tail, fmt, d), body, fmt);
  }

  lemma TextOfItems(c: string, q: nat, t: string, rest: string, body: string, fmt: bool)
    requires body == t + (Comma(fmt) + rest) && TextAt(c, q, body) && rest != "" && ValueStart(rest[0])
    requires q + |body| < |c| && c[q + |body|] == ']'
    ensures var e := q + |t|;
            && |body| == |t| + |Comma(fmt)| + |rest|
            && TextAt(c, q, t) && TextAt(c, e + |Comma(fmt)|, rest)
            && NumberStops(c, e) && c[e] == ',' && SkipWhite(c, e + 1) == e + |Comma(fmt)|
            && e + |Comma(fmt)| + |rest| < |c| && c[e + |Comma(fmt)| + |rest|] == ']'
  {
    hide Comma, SkipWhite, TextAt, NumberStops;
    ItemPieces(c, q, t, rest, fmt);
  }

  lemma LastItem(c: string, p: nat, q: nat, items: seq<Json>, vend: nat, e: nat, d: nat)
    requires |items| == 1 && p <= |c| && SkipWhite(c, p) == q
    requires vend <= |c| && SkipWhite(c, vend) == e && e < |c| && c[e] == ']'
    requires ParseValue(c, q, d) == Within(Nesting(items[0]), d, items[0], vend)
    ensures ParseItems(c, p, d) == Within(NestingItems(items), d, items, e + 1)
  {
    ItemStep(c, p, q, d, items[0], Nesting(items[0]), vend, e);
    OneItem(items);
    assert items == [items[0]];
  }

  lemma MoreItems(c: string, p: nat, q: nat, items: seq<Json>, vend: nat, e: nat, end: nat, d: nat)
    requires |items| > 1 && p <= |c| && SkipWhite(c, p) == q
    requires vend <= |c| && SkipWhite(c, vend) == e && e < |c| && c[e] == ','
    requires ParseValue(c, q, d) == Within(Nesting(items[0]), d, items[0], vend)
    requires ParseItems(c, e + 1, d) == Within(NestingItems(items[1..]), d, items[1..], end)
    ensures ParseItems(c, p, d) == Within(NestingItems(items), d, items, end)
  {
    ItemStep(c, p, q, d, items[0], Nesting(items[0]), vend, e);
    assert items == [items[0]] + items[1..];
  }

  /** The elements, from `p` with only white space up to `q`. */
  lemma {:induction false} ItemsTrip(c: string, p: nat, q: nat, items: seq<Json>, body: string, fmt: bool, d: nat)
    requires items != [] && PrintableItems(items) && d <= NESTING_LIMIT && body == PrintItems(items, fmt, d)
    requires TextAt(c, q, body) && p <= |c| && SkipWhite(c, p) == q
    requires q + |body| < |c| && c[q + |body|] == ']'
    ensures ParseItems(c, p, d) == Within(NestingItems(items), d, items, q + |body| + 1)
    decreases items, 0
  {
    hide Print, ParseValue, ParseItems, SkipWhite, TextAt;
    var e := q + |Print(items[0], fmt, d)|;
    if |items| == 1 {
      assert body == Print(items[0], fmt, d);
      ValueTrip(c, q, items[0], fmt, d);
      SkipStays(c, e);
      LastItem(c, p, q, items, e, e, d);
    } else {
      var rest := PrintItems(items[1..], fmt, d);
      ItemsText(c, q, items, body, fmt, d);
      ValueTrip(c, q, items[0], fmt, d);
      ItemsTrip(c, e + 1, e + |Comma(fmt)|, items[1..], rest, fmt, d);
      SkipStays(c, e);
      MoreItems(c, p, q, items, e, e, e + |Comma(fmt)| + |rest| + 1, d);
    }
  }

  lemma OneItem(items: seq<Json>)
    requires |items| == 1
    ensures NestingItems(items) == Nesting(items[0])
  {
    assert NestingItems(items[1..]) == 0;
  }

  lemma AfterComma(c: string, e: nat, fmt: bool)
    requires TextAt(c, e, Comma(fmt)) && e + |Comma(fmt)| < |c| && c[e + |Comma(fmt)|] as int > 32
    ensures SkipWhite(c, e + 1) == e + |Comma(fmt)|
  {
    if fmt {
      assert Comma(fmt) == "," + " ";
      TextTail(c, e, ",", " ");
      SkipText(c, e + 1, " ");
    } else {
      SkipText(c, e + 1, "");
    }
  }

  function KeyIndent(fmt: bool, d: nat): nat {
    if fmt then d else 0
  }

  /** An empty object: only white space between the braces. */
  lemma OpenThen(c: string, i: nat, open: string, tabs: string)
    requires open in {"{", "{\n"} && White(tabs) && TextAt(c, i, open) && TextAt(c, i + |open|, tabs)
    requires var e := i + |open| + |tabs|; e < |c| && c[e] == '}'
    ensures SkipWhite(c, i + 1) == i + |open| + |tabs|
  {
    WhiteAfter(c, i, open, tabs);
  }

  /** The first key stands behind the brace and its indentation. */
  lemma FirstName(c: string, i: nat, open: string, m: Member, fmt: bool, d: nat, body: string)
    requires open == OpenBrace(fmt) && TextAt(c, i, open) && TextAt(c, i + |open|, body)
    requires PrintKey(m.key, fmt, d) <= body
    ensures var k := i + |open| + KeyIndent(fmt, d);
            SkipWhite(c, i + 1) == k && k < |c| && c[k] == '\"' && SkipWhite(c, k) == k
  {
    hide PrintKey, TextAt, PrintString;
    KeyAt(c, i + |open|, m.key, fmt, d, body);
    WhiteAfter(c, i, open, if fmt then Tabs(d) else "");
  }

  lemma KeyUnfold(key: string, fmt: bool, d: nat)
    ensures var tabs := if fmt then Tabs(d) else "";
            |tabs| == KeyIndent(fmt, d) && PrintKey(key, fmt, d) == tabs + PrintString(key) + Colon(fmt)
    ensures PrintString(key) != "" && PrintString(key)[0] == '\"'
  {
  }

  /** Where the pieces of a printed key are. */
  lemma KeyAt(c: string, q: nat, key: string, fmt: bool, d: nat, body: string)
    requires TextAt(c, q, body) && PrintKey(key, fmt, d) <= body
    ensures var tabs := if fmt then Tabs(d) else ""; var k := q + KeyIndent(fmt, d);
            && |tabs| == KeyIndent(fmt, d) && TextAt(c, q, tabs) && TextAt(c, k, PrintString(key))
            && k < |c| && c[k] == '\"'
            && TextAt(c, k + |PrintString(key)|, Colon(fmt))
  {
    KeyUnfold(key, fmt, d);
    hide TextAt, PrintString, PrintKey, Tabs, Colon;
    var text := PrintKey(key, fmt, d);
    assert body == text + body[|text|..];
    TextTail(c, q, text, body[|text|..]);
    PiecesAt(c, q, if fmt then Tabs(d) else "", PrintString(key), Colon(fmt));
    HeadAt(c, q + KeyIndent(fmt, d), PrintString(key));
  }

  function Colon(fmt: bool): string {
    if fmt then ":\t" else ":"
  }

  lemma PiecesAt(c: string, q: nat, t1: string, t2: string, t3: string)
    requires TextAt(c, q, t1 + t2 + t3)
    ensures TextAt(c, q, t1) && TextAt(c, q + |t1|, t2) && TextAt(c, q + |t1| + |t2|, t3)
  {
    TextTail(c, q, t1 + t2, t3);
    TextTail(c, q, t1, t2);
  }

  lemma PrintStringStart(key: string)
    ensures PrintString(key) != "" && PrintString(key)[0] == '\"'
  {
  }

  lemma NameTrip(c: string, p: nat, k: nat, key: string, colon: string)
    requires NulFree(key) && p <= |c| && SkipWhite(c, p) == k && TextAt(c, k, PrintString(key))
    requires colon in {":", ":\t"} && TextAt(c, k + |PrintString(key)|, colon)
    ensures ParseName(c, p) == Parsed(key, k + |PrintString(key)| + 1)
  {
    hide SkipWhite, PrintString, ParseString;
    PrintStringStart(key);
    HeadAt(c, k, PrintString(key));
    StringRoundTrip(c, k, key);
    HeadAt(c, k + |PrintString(key)|, colon);
    SkipStays(c, k + |PrintString(key)|);
  }

  lemma AfterColon(c: string, k: nat, colon: string)
    requires colon in {":", ":\t"} && TextAt(c, k, colon) && k + |colon| < |c| && c[k + |colon|] as int > 32
    ensures SkipWhite(c, k + 1) == k + |colon|
  {
    assert colon == colon[..1] + colon[1..];
    TextTail(c, k, colon[..1], colon[1..]);
    SkipText(c, k + 1, colon[1..]);
  }

  /** One member and what follows it. */
  lemma MemberStep(c: string, p: nat, d: nat, m: Member, at: nat, v: nat, nesting: nat, vend: nat, e: nat)
    requires p <= |c| && ParseName(c, p) == Parsed(m.key, at) && at <= |c| && SkipWhite(c, at) == v
    requires ParseValue(c, v, d) == Within(nesting, d, m.value, vend)
    requires vend <= |c| && SkipWhite(c, vend) == e && e < |c| && c[e] in {',', '}'}
    ensures var rest := ParseMembers(c, e + 1, d);
            ParseMembers(c, p, d) ==
              if d + nesting > NESTING_LIMIT then Failed
              else if c[e] == '}' then Parsed([m], e + 1)
              else if rest.Failed? then Failed
              else Parsed([m] + rest.value, rest.offset)
  {
    hide ParseValue, ParseName;
  }

  lemma ColonIs(fmt: bool)
    ensures Colon(fmt) in {":", ":\t"}
  {
  }

  lemma KeySize(key: string, fmt: bool, d: nat)
    ensures |PrintKey(key, fmt, d)| == KeyIndent(fmt, d) + |PrintString(key)| + |Colon(fmt)|
  {
  }

  /** Name, colon and value of the member that begins at `q`. */
  lemma MemberHead(c: string, p: nat, q: nat, m: Member, fmt: bool, d: nat, t: string)
    requires NulFree(m.key) && t != "" && ValueStart(t[0])
    requires p <= |c| && SkipWhite(c, p) == q + KeyIndent(fmt, d)
    requires TextAt(c, q, PrintKey(m.key, fmt, d)) && TextAt(c, q + |PrintKey(m.key, fmt, d)|, t)
    ensures ParseName(c, p).Parsed? && ParseName(c, p).value == m.key
    ensures SkipWhite(c, ParseName(c, p).offset) == q + |PrintKey(m.key, fmt, d)|
  {
    KeySize(m.key, fmt, d);
    hide ParseName, SkipWhite, PrintString, PrintKey, TextAt, Tabs, Colon, KeyIndent;
    ColonIs(fmt);
    var k := q + KeyIndent(fmt, d);
    KeyAt(c, q, m.key, fmt, d, PrintKey(m.key, fmt, d));
    NameTrip(c, p, k, m.key, Colon(fmt));
    HeadAt(c, q + |PrintKey(m.key, fmt, d)|, t);
    AfterColon(c, k + |PrintString(m.key)|, Colon(fmt));
  }

  lemma MemberPieces(c: string, q: nat, key: string, t: string, end: string, rest: string)
    requires TextAt(c, q, key + t + end + rest)
    ensures TextAt(c, q, key) && TextAt(c, q + |key|, t) && TextAt(c, q + |key| + |t|, end)
    ensures TextAt(c, q + |key| + |t| + |end|, rest)
  {
    TextTail(c, q, key + t + end, rest);
    PiecesAt(c, q, key, t, end);
  }

  /** A member has been read, its name up to `at` and its value from `v` to `vend`. */
  ghost predicate MemberRead(c: string, p: nat, d: nat, m: Member, v: nat, vend: nat)
    requires p <= |c|
  {
    var name := ParseName(c, p);
    && name.Parsed? && name.value == m.key && SkipWhite(c, name.offset) == v
    && ParseValue(c, v, d) == Within(Nesting(m.value), d, m.value, vend)
  }

  lemma LastMember(c: string, p: nat, members: seq<Member>, v: nat, vend: nat, e: nat, d: nat)
    requires |members| == 1 && p <= |c| && MemberRead(c, p, d, members[0], v, vend)
    requires vend <= |c| && SkipWhite(c, vend) == e && e < |c| && c[e] == '}'
    ensures ParseMembers(c, p, d) == Within(NestingMembers(members), d, members, e + 1)
  {
    hide ParseName, ParseValue, ParseMembers, SkipWhite, Nesting;
    MemberStep(c, p, d, members[0], ParseName(c, p).offset, v, Nesting(members[0].value), vend, e);
    OneMember(members);
    assert members == [members[0]];
  }

  lemma ManyMembers(c: string, p: nat, members: seq<Member>, v: nat, vend: nat, e: nat, end: nat, d: nat)
    requires |members| > 1 && p <= |c| && MemberRead(c, p, d, members[0], v, vend)
    requires vend <= |c| && SkipWhite(c, vend) == e && e < |c| && c[e] == ','
    requires ParseMembers(c, e + 1, d) == Within(NestingMembers(members[1..]), d, members[1..], end)
    ensures ParseMembers(c, p, d) == Within(NestingMembers(members), d, members, end)
  {
    hide ParseName, ParseValue, ParseMembers, SkipWhite, Nesting;
    MemberStep(c, p, d, members[0], ParseName(c, p).offset, v, Nesting(members[0].value), vend, e);
    assert members == [members[0]] + members[1..];
  }

  /** Where the value of the first member stands, and what comes behind it. */
  lemma MembersText(c: string, p: nat, q: nat, members: seq<Member>, body: string, fmt: bool, d: nat)
    requires members != [] && NulFree(members[0].key) && body == PrintMembers(members, fmt, d) && TextAt(c, q, body)
    requires p <= |c| && SkipWhite(c, p) == q + KeyIndent(fmt, d)
    ensures var m := members[0]; var key, t := PrintKey(m.key, fmt, d), Print(m.value, fmt, d);
            var end, rest := MemberEnd(|members| == 1, fmt), PrintMembers(members[1..], fmt, d); var v := q + |key|;
            && |body| == |key| + |t| + |end| + |rest|
            && TextAt(c, v, t) && TextAt(c, v + |t|, end) && TextAt(c, v + |t| + |end|, rest)
            && ParseName(c, p).Parsed? && ParseName(c, p).value == m.key && SkipWhite(c, ParseName(c, p).offset) == v
  {
    hide Print, PrintKey, ParseName, SkipWhite, TextAt, MemberEnd, NulFree;
    var m := members[0];
    var key, t := PrintKey(m.key, fmt, d), Print(m.value, fmt, d);
    MemberPieces(c, q, key, t, MemberEnd(|members| == 1, fmt), PrintMembers(members[1..], fmt, d));
    PrintStarts(m.value, fmt, d);
    MemberHead(c, p, q, m, fmt, d, t);
  }

  /** The members, from `p` with only white space up to the first key, which begins with its
      indentation at `q`. */
  lemma {:induction false} MembersTrip(c: string, p: nat, q: nat, members: seq<Member>, body: string,
                                       fmt: bool, d: nat, tabs: string)
    requires members != [] && PrintableMembers(members) && d <= NESTING_LIMIT && body == PrintMembers(members, fmt, d)
    requires p <= |c| && SkipWhite(c, p) == q + KeyIndent(fmt, d)
    requires TextAt(c, q, body) && TextAt(c, q + |body|, tabs) && White(tabs)
    requires var e := q + |body| + |tabs|; e < |c| && c[e] == '}'
    ensures ParseMembers(c, p, d) == Within(NestingMembers(members), d, members, q + |body| + |tabs| + 1)
    decreases members, 0
  {
    hide Print, PrintKey, ParseValue, ParseMembers, ParseName, SkipWhite, MemberEnd, TextAt, White, NulFree;
    MembersText(c, p, q, members, body, fmt, d);
    KeyFirst(members[1..], fmt, d);
    var m := members[0];
    var v := q + |PrintKey(m.key, fmt, d)|;
    var vend := v + |Print(m.value, fmt, d)|;
    if |members| == 1 {
      LastEnd(c, vend, MemberEnd(true, fmt), tabs, fmt);
      ValueTrip(c, v, m.value, fmt, d);
      LastMember(c, p, members, v, vend, q + |body| + |tabs|, d);
    } else {
      var end, rest := MemberEnd(false, fmt), PrintMembers(members[1..], fmt, d);
      assert vend + |end| + |rest| == q + |body|;
      MoreMembers(c, vend, end, members[1], fmt, d, rest);
      ValueTrip(c, v, m.value, fmt, d);
      MembersTrip(c, vend + 1, vend + |end|, members[1..], rest, fmt, d, tabs);
      ManyMembers(c, p, members, v, vend, vend, vend + |end| + |rest| + |tabs| + 1, d);
    }
  }

  lemma OneMember(members: seq<Member>)
    requires |members| == 1
    ensures NestingMembers(members) == Nesting(members[0].value)
  {
    assert NestingMembers(members[1..]) == 0;
  }

  /** Between the last value and the closing brace. */
  lemma LastEnd(c: string, vend: nat, end: string, tabs: string, fmt: bool)
    requires end == MemberEnd(true, fmt) && TextAt(c, vend, end) && TextAt(c, vend + |end|, tabs) && White(tabs)
    requires var e := vend + |end| + |tabs|; e < |c| && c[e] == '}'
    ensures SkipWhite(c, vend) == vend + |end| + |tabs| && NumberStops(c, vend)
  {
    TextJoin(c, vend, end, tabs);
    SkipText(c, vend, end + tabs);
    if end + tabs != "" {
      HeadAt(c, vend, end + tabs);
    }
  }

  /** A comma, and white space up to the next key. */
  lemma MoreMembers(c: string, vend: nat, end: string, m: Member, fmt: bool, d: nat, rest: string)
    requires end == MemberEnd(false, fmt) && TextAt(c, vend, end) && TextAt(c, vend + |end|, rest)
    requires PrintKey(m.key, fmt, d) <= rest
    ensures vend < |c| && c[vend] == ',' && SkipWhite(c, vend) == vend && NumberStops(c, vend)
    ensures SkipWhite(c, vend + 1) == vend + |end| + KeyIndent(fmt, d)
  {
    hide PrintKey, PrintString;
    HeadAt(c, vend, end);
    KeyAt(c, vend + |end|, m.key, fmt, d, rest);
    WhiteAfter(c, vend, end, if fmt then Tabs(d) else "");
  }

  /** A first character, then white space, then something visible. */
  lemma WhiteAfter(c: string, i: nat, first: string, tabs: string)
    requires first != "" && White(first[1..]) && White(tabs)
    requires TextAt(c, i, first) && TextAt(c, i + |first|, tabs)
    requires var e := i + |first| + |tabs|; e < |c| && c[e] as int > 32
    ensures SkipWhite(c, i + 1) == i + |first| + |tabs|
  {
    assert first == first[..1] + first[1..];
    TextTail(c, i, first[..1], first[1..]);
    TextJoin(c, i + 1, first[1..], tabs);
    SkipText(c, i + 1, first[1..] + tabs);
  }

  // ---------------------------------------------------------------- the theorem

  /** Parsing the printed text of any printable tree, formatted or not, gives back the same
      ordered tree and consumes all of the text, if the tree is nested at most 1000 deep, and
      fails if it is nested deeper. */
  lemma PrintParse(v: Json, fmt: bool)
    requires Printable(v)
    ensures Parse(Print(v, fmt, 0)) ==
            if Nesting(v) <= NESTING_LIMIT then Parsed(v, |Print(v, fmt, 0)|) else Failed
  {
    var t := Print(v, fmt, 0);
    var c := t + "\0";
    PrintStarts(v, fmt, 0);
    assert c[0] == t[0] && c[|t|] == '\0';
    SkipTo(c, 0, 0);
    ValueTrip(c, 0, v, fmt, 0);
  }
}
