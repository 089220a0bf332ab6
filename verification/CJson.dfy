/**
 cJSON trees, the text they are printed as, and the parser that reads text back (cJSON.c,
 for RFC 8259). The siblings of a node are kept as a sequence, in list order.
 */
module CJson {
  import opened Wrappers
  import opened CJsonStrings
  import opened CJsonNumbers

  datatype Json =
    | Null
    | Bool(b: bool)
    | Number(valueInt: int, valueDouble: real)
    | Str(s: string)
    | Array(items: seq<Json>)
    | Object(members: seq<Member>)

  datatype Member = Member(key: string, value: Json)

  const NESTING_LIMIT: nat := 1000

  // ---------------------------------------------------------------- printing

  function Tabs(n: nat): string {
    seq(n, _ => '\t')
  }

  /** The text of a value at nesting depth `d`, formatted or not. Of numbers only those whose
      double equals their int are covered. */
  function Print(v: Json, fmt: bool, d: nat): string
    decreases v, 1
  {
    match v
    case Null => "null"
    case Bool(b) => if b then "true" else "false"
    case Number(n, _) => IntText(n)
    case Str(s) => PrintString(s)
    case Array(items) => "[" + PrintItems(items, fmt, d + 1) + "]"
    case Object(members) =>
      OpenBrace(fmt) + PrintMembers(members, fmt, d + 1) + (if fmt then Tabs(d) else "") + "}"
  }

  function OpenBrace(fmt: bool): string {
    if fmt then "{\n" else "{"
  }

  function PrintItems(items: seq<Json>, fmt: bool, d: nat): string
    decreases items, 0
  {
    if items == [] then ""
    else Print(items[0], fmt, d) + (if |items| == 1 then "" else Comma(fmt) + PrintItems(items[1..], fmt, d))
  }

  function Comma(fmt: bool): string {
    if fmt then ", " else ","
  }

  function PrintMembers(members: seq<Member>, fmt: bool, d: nat): string
    decreases members, 0
  {
    if members == [] then ""
    else
      PrintKey(members[0].key, fmt, d) + Print(members[0].value, fmt, d)
      + MemberEnd(|members| == 1, fmt) + PrintMembers(members[1..], fmt, d)
  }

  function PrintKey(key: string, fmt: bool, d: nat): string {
    (if fmt then Tabs(d) else "") + PrintString(key) + (if fmt then ":\t" else ":")
  }

  function MemberEnd(last: bool, fmt: bool): string {
    (if last then "" else ",") + (if fmt then "\n" else "")
  }

  /** C strings, and numbers that are whole and in the range of `int`. */
  predicate Printable(v: Json)
    decreases v, 1
  {
    match v
    case Null => true
    case Bool(_) => true
    case Number(n, x) => INT_MIN <= n <= INT_MAX && x == n as real
    case Str(s) => NulFree(s)
    case Array(items) => PrintableItems(items)
    case Object(members) => PrintableMembers(members)
  }

  predicate PrintableItems(items: seq<Json>)
    decreases items, 0
  {
    items == [] || (Printable(items[0]) && PrintableItems(items[1..]))
  }

  predicate PrintableMembers(members: seq<Member>)
    decreases members, 0
  {
    members == []
    || (NulFree(members[0].key) && Printable(members[0].value) && PrintableMembers(members[1..]))
  }

  /** How deeply arrays and objects are nested. */
  function Nesting(v: Json): nat
    decreases v, 1
  {
    match v
    case Array(items) => 1 + NestingItems(items)
    case Object(members) => 1 + NestingMembers(members)
    case _ => 0
  }

  function NestingItems(items: seq<Json>): nat
    decreases items, 0
  {
    if items == [] then 0 else Max(Nesting(items[0]), NestingItems(items[1..]))
  }

  function NestingMembers(members: seq<Member>): nat
    decreases members, 0
  {
    if members == [] then 0 else Max(Nesting(members[0].value), NestingMembers(members[1..]))
  }

  function Max(a: nat, b: nat): nat {
    if a < b then b else a
  }

  // ---------------------------------------------------------------- parsing

  /** The first character from `i` on that is not white space, or the end. Control characters
      count as white space, and so does the terminating NUL. */
  function WhiteEnd(c: string, i: nat): (e: nat)
    ensures e >= i && (i <= |c| ==> e <= |c|)
    ensures i < |c| && c[i] as int > 32 ==> e == i
    decreases |c| - i
  {
    if i < |c| && c[i] as int <= 32 then WhiteEnd(c, i + 1) else i
  }

  /** `buffer_skip_whitespace`: at the end of the buffer it steps back onto the last byte. */
  function SkipWhite(c: string, i: nat): (e: nat)
    requires i <= |c|
    ensures i <= e <= |c|
    ensures i < |c| ==> e < |c|
  {
    if i == |c| then i
    else if WhiteEnd(c, i) == |c| then |c| - 1
    else WhiteEnd(c, i)
  }

  predicate Reads(c: string, i: nat, word: string) {
    TextAt(c, i, word)
  }

  /** `parse_number`. */
  function ParseNumber(c: string, i: nat): (r: Parsed<Json>)
    requires i <= |c|
    ensures r.Parsed? ==> i < r.offset <= |c|
  {
    var n := NumberSpan(c, i);
    var x := ReadDouble(if n == 0 then "" else c[i..i + n]);
    if x.length == 0 then Failed else Parsed(Number(Saturated(x.value), x.value), i + x.length)
  }

  /** `parse_value`, at nesting depth `d`. */
  function ParseValue(c: string, i: nat, d: nat): (r: Parsed<Json>)
    requires i <= |c|
    ensures r.Parsed? ==> i < r.offset <= |c|
    decreases |c| - i, 1
  {
    if Reads(c, i, "null") then Parsed(Null, i + 4)
    else if Reads(c, i, "false") then Parsed(Bool(false), i + 5)
    else if Reads(c, i, "true") then Parsed(Bool(true), i + 4)
    else if i >= |c| then Failed
    else if c[i] == '\"' then
      var s := ParseString(c, i);
      if s.Failed? then Failed else Parsed(Str(s.value), s.offset)
    else if c[i] == '-' || '0' <= c[i] <= '9' then ParseNumber(c, i)
    else if c[i] == '[' then ParseArray(c, i, d)
    else if c[i] == '{' then ParseObject(c, i, d)
    else Failed
  }

  /** `parse_array`, standing on the bracket. */
  function ParseArray(c: string, i: nat, d: nat): (r: Parsed<Json>)
    requires i < |c|
    ensures r.Parsed? ==> i < r.offset <= |c|
    decreases |c| - i, 0
  {
    if d >= NESTING_LIMIT then Failed
    else
      var j := SkipWhite(c, i + 1);
      if j >= |c| then Failed
      else if c[j] == ']' then Parsed(Array([]), j + 1)
      else
        var items := ParseItems(c, j, d + 1);
        if items.Failed? then Failed else Parsed(Array(items.value), items.offset)
  }

  /** The elements from `p` on, each followed by a comma, up to and including the bracket. */
  function ParseItems(c: string, p: nat, d: nat): (r: Parsed<seq<Json>>)
    requires p <= |c|
    ensures r.Parsed? ==> p < r.offset <= |c|
    decreases |c| - p, 2
  {
    var v := ParseValue(c, SkipWhite(c, p), d);
    if v.Failed? then Failed
    else
      var e := SkipWhite(c, v.offset);
      if e >= |c| then Failed
      else if c[e] == ',' then
        var rest := ParseItems(c, e + 1, d);
        if rest.Failed? then Failed else Parsed([v.value] + rest.value, rest.offset)
      else if c[e] == ']' then Parsed([v.value], e + 1)
      else Failed
  }

  /** `parse_object`, standing on the brace. */
  function ParseObject(c: string, i: nat, d: nat): (r: Parsed<Json>)
    requires i < |c|
    ensures r.Parsed? ==> i < r.offset <= |c|
    decreases |c| - i, 0
  {
    if d >= NESTING_LIMIT then Failed
    else
      var j := SkipWhite(c, i + 1);
      if j >= |c| then Failed
      else if c[j] == '}' then Parsed(Object([]), j + 1)
      else
        var members := ParseMembers(c, j, d + 1);
        if members.Failed? then Failed else Parsed(Object(members.value), members.offset)
  }

  /** The name of a member and its colon; the result stands behind the colon. */
  function ParseName(c: string, p: nat): (r: Parsed<string>)
    requires p <= |c|
    ensures r.Parsed? ==> p < r.offset <= |c|
  {
    var k := SkipWhite(c, p);
    if k >= |c| then Failed  // the source reads one byte past an unterminated buffer here
    else
      var name := ParseString(c, k);
      if name.Failed? then Failed
      else
        var colon := SkipWhite(c, name.offset);
        if colon >= |c| || c[colon] != ':' then Failed else Parsed(name.value, colon + 1)
  }

  /** The members from `p` on, up to and including the brace. */
  function ParseMembers(c: string, p: nat, d: nat): (r: Parsed<seq<Member>>)
    requires p <= |c|
    ensures r.Parsed? ==> p < r.offset <= |c|
    decreases |c| - p, 2
  {
    var name := ParseName(c, p);
    if name.Failed? then Failed
    else
      var v := ParseValue(c, SkipWhite(c, name.offset), d);
      if v.Failed? then Failed
      else
        var e := SkipWhite(c, v.offset);
        var m := Member(name.value, v.value);
        if e >= |c| then Failed
        else if c[e] == ',' then
          var rest := ParseMembers(c, e + 1, d);
          if rest.Failed? then Failed else Parsed([m] + rest.value, rest.offset)
        else if c[e] == '}' then Parsed([m], e + 1)
        else Failed
  }

  /** `skip_utf8_bom`. */
  function SkipBom(c: string): (i: nat)
    ensures i <= |c|
  {
    if |c| > 4 && c[0] as int == 0xEF && c[1] as int == 0xBB && c[2] as int == 0xBF then 3 else 0
  }

  /** `cJSON_Parse` on a C string: the text behind the value is not looked at. */
  function Parse(text: string): Parsed<Json> {
    var c := text + "\0";
    ParseValue(c, SkipWhite(c, SkipBom(c)), 0)
  }
}
