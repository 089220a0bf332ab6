/**
 What cJSON prints is JSON text by the grammar of RFC 8259, formatted or not, and denotes the tree
 that was printed.
 */
module CJsonConformance {
  import opened CJsonStrings
  import opened CJsonSpellings
  import opened CJsonNumbers
  import opened CJsonDecimals
  import opened CJson
  import opened CJsonDocuments

  // ---------------------------------------------------------------- strings and numbers

  /** The unit a character is printed as. */
  function PieceOf(ch: char): Piece {
    if ch == '\"' || ch == '\\' then Short(ch)
    else if ch as int > 31 then Plain(ch)
    else if ch as int == 8 then Short('b')
    else if ch as int == 12 then Short('f')
    else if ch as int == 10 then Short('n')
    else if ch as int == 13 then Short('r')
    else if ch as int == 9 then Short('t')
    else Unit(['0', '0', LOWER_HEX[ch as int / 16], LOWER_HEX[ch as int % 16]], [0, 0, ch as int / 16, ch as int % 16])
  }

  /** It stands for the character; no control character is printed as it is, and digits are
      used only where there is no short escape. */
  lemma EscapeSpells(ch: char)
    ensures PieceText(PieceOf(ch)) == EscapeChar(ch) && Spells(PieceOf(ch), [ch])
    ensures PieceOf(ch).Plain? <==> ch as int >= 0x20 && ch != '\"' && ch != '\\'
    ensures PieceOf(ch).Unit? ==> forall letter :: !ShortSpells(letter, [ch])
  {
    if PieceOf(ch).Unit? {
      UnitSpells(ch);
    }
  }

  lemma UnitSpells(ch: char)
    requires (ch as int) < 0x20
    ensures var h, l := ch as int / 16, ch as int % 16;
            Spells(Unit(['0', '0', LOWER_HEX[h], LOWER_HEX[l]], [0, 0, h, l]), [ch])
  {
    var h, l := ch as int / 16, ch as int % 16;
    assert HexDigit('0', 0) && HexDigit(LOWER_HEX[h], h) && HexDigit(LOWER_HEX[l], l);
    assert Number4([0, 0, h, l]) == ch as int;
    assert IsUtf8([ch], ch as int);
  }

  function Spelling(s: string): seq<Spelled> {
    if s == "" then [] else [Spelled(PieceOf(s[0]), [s[0]])] + Spelling(s[1..])
  }

  lemma {:induction false} SpellingOf(s: string)
    ensures AllSpell(Spelling(s)) && LiteralText(Spelling(s)) == Escape(s) && LiteralString(Spelling(s)) == s
    decreases |s|
  {
    hide PieceOf, PieceText, EscapeChar, Spells;
    if s != "" {
      EscapeSpells(s[0]);
      SpellingOf(s[1..]);
      assert Spelling(s)[1..] == Spelling(s[1..]);
      assert [s[0]] + s[1..] == s;
    }
  }

  function WholeDecimal(n: int): Decimal {
    Decimal(n < 0, Digits(if n < 0 then -n else n), "", "", "")
  }

  /** An integer is printed by the grammar, without leading zeros. */
  lemma IntSpells(n: int)
    requires INT_MIN <= n <= INT_MAX
    ensures var x := WholeDecimal(n);
            && Proper(x) && DecimalText(x) == IntText(n) && |DecimalText(x)| <= NUMBER_ROOM
            && DecimalValue(x) == n as real && Saturated(DecimalValue(x)) == n
            && (|x.whole| > 1 ==> x.whole[0] != '0')
  {
    NoLeadingZero(if n < 0 then -n else n);
    WholeText(n);
    WholeValue(n);
    hide DecimalText, DecimalValue, Proper, Digits, Saturated;
    IntTextShort(n);
    SaturatedInt(n);
  }

  lemma WholeText(n: int)
    ensures Proper(WholeDecimal(n)) && DecimalText(WholeDecimal(n)) == IntText(n)
  {
    var d := Digits(if n < 0 then -n else n);
    hide Digits;
    assert d + ("" + ("" + "")) == d;
  }

  lemma WholeValue(n: int)
    ensures DecimalValue(WholeDecimal(n)) == n as real
  {
    var m := if n < 0 then -n else n;
    DigitsRead(m);
    UnitsRead(Digits(m));
    hide Digits, Units, DigitsValue;
    assert Shift(m as real + Parts(""), 0) == m as real;
    Negated(m);
  }

  // ---------------------------------------------------------------- trees

  function NewLine(fmt: bool, d: nat): string {
    if fmt then "\n" + Tabs(d) else ""
  }

  /** The document a tree is printed as at depth `d`. */
  function PrintedDoc(v: Json, fmt: bool, d: nat): Doc
    decreases v, 1
  {
    match v
    case Null => NullDoc
    case Bool(b) => BoolDoc(b)
    case Number(n, _) => NumberDoc(WholeDecimal(n))
    case Str(s) => StringDoc(Spelling(s))
    case Array(items) => ArrayDoc("", PrintedItems(items, "", fmt, d + 1))
    case Object(members) => ObjectDoc(NewLine(fmt, d), PrintedMembers(members, fmt, d + 1))
  }

  function PrintedItems(items: seq<Json>, before: string, fmt: bool, d: nat): (r: seq<ItemDoc>)
    ensures |r| == |items|
    decreases items, 0
  {
    if items == [] then []
    else
      [ItemDoc(before, PrintedDoc(items[0], fmt, d), "")]
      + PrintedItems(items[1..], if fmt then " " else "", fmt, d)
  }

  /** A member's line is left after the last one only. */
  function PrintedMembers(members: seq<Member>, fmt: bool, d: nat): (r: seq<MemberDoc>)
    requires d > 0
    ensures |r| == |members|
    decreases members, 0
  {
    if members == [] then []
    else
      var m := members[0];
      [MemberDoc(NewLine(fmt, d), Spelling(m.key), "", if fmt then "\t" else "", PrintedDoc(m.value, fmt, d),
                 if |members| == 1 then NewLine(fmt, d - 1) else "")]
      + PrintedMembers(members[1..], fmt, d)
  }

  /** Printed text is JSON text that denotes the tree. */
  lemma {:induction false} PrintConforms(v: Json, fmt: bool, d: nat)
    requires Printable(v)
    ensures WellFormed(PrintedDoc(v, fmt, d))
    ensures DocText(PrintedDoc(v, fmt, d)) == Print(v, fmt, d)
    ensures DocValue(PrintedDoc(v, fmt, d)) == v
    decreases v, 1
  {
    match v
    case Null =>
    case Bool(_) =>
    case Number(n, _) => IntSpells(n);
    case Str(s) => SpellingOf(s);
    case Array(items) => ArrayConforms(items, fmt, d);
    case Object(members) => ObjectConforms(members, fmt, d);
  }

  lemma {:induction false} ArrayConforms(items: seq<Json>, fmt: bool, d: nat)
    requires PrintableItems(items)
    ensures var doc := PrintedDoc(Array(items), fmt, d);
            WellFormed(doc) && DocText(doc) == Print(Array(items), fmt, d) && DocValue(doc) == Array(items)
    decreases items, 2
  {
    hide PrintedItems, PrintItems, ElementsText, ElementValues, WellFormedItems;
    if items != [] {
      ItemsConform(items, "", fmt, d + 1);
    } else {
      NoItems(fmt, d + 1);
    }
  }

  lemma NoItems(fmt: bool, d: nat)
    ensures PrintedItems([], "", fmt, d) == [] && PrintItems([], fmt, d) == ""
    ensures WellFormedItems([]) && ElementValues([]) == []
  {
  }

  lemma Regroup(a: string, b: string, c: string)
    ensures (a + b) + c == a + (b + c)
  {
  }

  lemma FirstItem(items: seq<Json>, before: string, fmt: bool, d: nat)
    requires items != []
    ensures var docs := PrintedItems(items, before, fmt, d);
            && |docs| == |items| && docs[0] == ItemDoc(before, PrintedDoc(items[0], fmt, d), "")
            && docs[1..] == PrintedItems(items[1..], if fmt then " " else "", fmt, d)
  {
    hide PrintedDoc;
  }

  lemma SeparatorBlank(fmt: bool)
    ensures var rest := if fmt then " " else ""; "," + rest == Comma(fmt) && Blank(rest)
    ensures Blank("") && Blank(if fmt then "\t" else "")
  {
  }

  lemma FollowingIs(last: bool, rest: string)
    ensures Following(last, rest) == if last then "" else "," + rest
  {
  }

  lemma {:induction false} ItemsConform(items: seq<Json>, before: string, fmt: bool, d: nat)
    requires items != [] && PrintableItems(items) && Blank(before)
    ensures var docs := PrintedItems(items, before, fmt, d);
            && WellFormedItems(docs) && ElementValues(docs) == items
            && ElementsText(docs) == before + PrintItems(items, fmt, d)
    decreases items, 0
  {
    hide PrintedDoc, PrintedItems, Print, Printable, WellFormed, DocText, DocValue, Comma, Blank, Following;
    SeparatorBlank(fmt);
    var rest := if fmt then " " else "";
    FirstItem(items, before, fmt, d);
    PrintConforms(items[0], fmt, d);
    if |items| > 1 {
      ItemsConform(items[1..], rest, fmt, d);
      Regroup(",", rest, PrintItems(items[1..], fmt, d));
    }
    var next := if |items| == 1 then "" else Comma(fmt) + PrintItems(items[1..], fmt, d);
    assert Following(|items| == 1, ElementsText(PrintedItems(items[1..], rest, fmt, d))) == next by {
      FollowingIs(|items| == 1, ElementsText(PrintedItems(items[1..], rest, fmt, d)));
    }
    assert "" + next == next;
    assert items == [items[0]] + items[1..];
  }

  lemma {:induction false} ObjectConforms(members: seq<Member>, fmt: bool, d: nat)
    requires PrintableMembers(members)
    ensures var doc := PrintedDoc(Object(members), fmt, d);
            WellFormed(doc) && DocText(doc) == Print(Object(members), fmt, d) && DocValue(doc) == Object(members)
    decreases members, 2
  {
    hide PrintedMembers, PrintMembers, PairsText, PairValues, WellFormedMembers;
    NewLineBlank(fmt, d);
    if members != [] {
      MembersDenote(members, fmt, d + 1);
      MembersAsPairs(members, fmt, d + 1);
    } else {
      NoMembers(fmt, d + 1);
    }
  }

  lemma NoMembers(fmt: bool, d: nat)
    requires d > 0
    ensures PrintedMembers([], fmt, d) == [] && PrintMembers([], fmt, d) == ""
    ensures WellFormedMembers([]) && PairValues([]) == []
  {
  }

  lemma NewLineBlank(fmt: bool, d: nat)
    ensures Blank(NewLine(fmt, d))
  {
  }

  function Break(fmt: bool): string {
    if fmt then "\n" else ""
  }

  function Indent(fmt: bool, d: nat): string {
    if fmt then Tabs(d) else ""
  }

  /** The same text, with the line break after a member or before the next one. */
  lemma SameLines(nl: string, tabs: string, key: string, colon: string, value: string, end: string, rest: string,
                  last: string, x: string)
    requires x == end + (rest + last)
    ensures ((nl + tabs) + (key + colon)) + (value + x) ==
            (nl + (((((tabs + key) + colon) + value) + end) + rest)) + last
  {
    var k := (tabs + key) + colon;
    Regroup(nl, ((k + value) + end) + rest, last);
    Regroup((k + value) + end, rest, last);
    Regroup(k + value, end, rest + last);
    Regroup(k, value, x);
    Regroup(tabs, key, colon);
    Regroup(nl, tabs, key + colon);
    Regroup(nl, k, value + x);
  }

  lemma FirstMember(members: seq<Member>, fmt: bool, d: nat)
    requires members != [] && d > 0
    ensures var docs := PrintedMembers(members, fmt, d); var m := members[0];
            && |docs| == |members| && docs[1..] == PrintedMembers(members[1..], fmt, d)
            && docs[0] == MemberDoc(NewLine(fmt, d), Spelling(m.key), "", if fmt then "\t" else "",
                                    PrintedDoc(m.value, fmt, d), if |members| == 1 then NewLine(fmt, d - 1) else "")
  {
    hide PrintedDoc, NewLine, Spelling;
  }

  lemma BreakIndent(fmt: bool, d: nat)
    ensures NewLine(fmt, d) == Break(fmt) + Indent(fmt, d)
  {
  }

  /** What follows a member's value. */
  lemma MemberTail(one: bool, fmt: bool, d: nat, rest: string, next: string)
    requires d > 0
    requires if one then rest == "" else next == (Break(fmt) + rest) + Indent(fmt, d - 1)
    ensures (if one then NewLine(fmt, d - 1) else "") + Following(one, next) ==
            MemberEnd(one, fmt) + (rest + Indent(fmt, d - 1))
  {
    hide Tabs;
    Regroup(",", Break(fmt), rest + Indent(fmt, d - 1));
    Regroup(Break(fmt), rest, Indent(fmt, d - 1));
  }

  lemma MemberText(m: Member, doc: MemberDoc, fmt: bool, d: nat, end: string, rest: string, last: string, x: string)
    requires doc.before == NewLine(fmt, d) && Quoted(doc.key) == PrintString(m.key) && doc.behindKey == ""
    requires doc.behindColon == (if fmt then "\t" else "") && x == end + (rest + last)
    ensures NameText(doc) + (Print(m.value, fmt, d) + x) ==
            (Break(fmt) + (PrintKey(m.key, fmt, d) + Print(m.value, fmt, d) + end + rest)) + last
  {
    hide Print, PrintString, Tabs, Quoted, NewLine, Break;
    BreakIndent(fmt, d);
    var colon := if fmt then ":\t" else ":";
    assert "" + (":" + doc.behindColon) == colon;
    SameLines(Break(fmt), Indent(fmt, d), PrintString(m.key), colon, Print(m.value, fmt, d), end, rest, last, x);
  }

  lemma {:induction false} MembersDenote(members: seq<Member>, fmt: bool, d: nat)
    requires members != [] && PrintableMembers(members) && d > 0
    ensures var docs := PrintedMembers(members, fmt, d); WellFormedMembers(docs) && PairValues(docs) == members
    decreases members, 0
  {
    hide PrintedDoc, PrintedMembers, Print, Printable, WellFormed, DocText, DocValue, Spelling, NewLine, Blank,
         AllSpell, CString, LiteralString, NulFree;
    FirstMember(members, fmt, d);
    NewLineBlank(fmt, d);
    NewLineBlank(fmt, d - 1);
    SeparatorBlank(fmt);
    KeySpells(members[0].key);
    PrintConforms(members[0].value, fmt, d);
    if |members| > 1 {
      MembersDenote(members[1..], fmt, d);
    }
    assert members == [members[0]] + members[1..];
  }

  /** Line breaks come before the members, where the code writes them behind what precedes. */
  lemma {:induction false} MembersAsPairs(members: seq<Member>, fmt: bool, d: nat)
    requires members != [] && PrintableMembers(members) && d > 0
    ensures PairsText(PrintedMembers(members, fmt, d)) ==
            (Break(fmt) + PrintMembers(members, fmt, d)) + Indent(fmt, d - 1)
    decreases members, 0
  {
    hide PrintedDoc, PrintedMembers, Print, Printable, DocText, Spelling, NewLine, Break, Indent,
         NameText, Following, PrintKey, MemberEnd, Quoted, PrintString, NulFree;
    var m := members[0];
    var one, rest := |members| == 1, PrintMembers(members[1..], fmt, d);
    var next := PairsText(PrintedMembers(members[1..], fmt, d));
    FirstMember(members, fmt, d);
    KeySpells(m.key);
    PrintConforms(m.value, fmt, d);
    if !one {
      MembersAsPairs(members[1..], fmt, d);
    }
    MemberTail(one, fmt, d, rest, next);
    MemberText(m, PrintedMembers(members, fmt, d)[0], fmt, d, MemberEnd(one, fmt), rest, Indent(fmt, d - 1),
               (if one then NewLine(fmt, d - 1) else "") + Following(one, next));
  }

  lemma KeySpells(key: string)
    requires NulFree(key)
    ensures AllSpell(Spelling(key)) && Quoted(Spelling(key)) == PrintString(key)
    ensures CString(LiteralString(Spelling(key))) == key
  {
    SpellingOf(key);
  }
}
