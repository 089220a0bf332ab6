/**
 JSON string literals as cJSON reads and writes them (sections 7 and 8 of RFC 8259).

 Text is a sequence of bytes, kept as characters with codes below 256. A buffer to be parsed
 includes its terminating NUL.
 */
module CJsonStrings {
  import opened Wrappers

  /** The text stands in the buffer at position `i`. */
  predicate TextAt(c: string, i: nat, text: string) {
    i + |text| <= |c| && c[i..i + |text|] == text
  }

  predicate NulFree(s: string) {
    '\0' !in s
  }

  /** What is left of an unescaped literal when it is read as a C string. */
  function CString(s: string): (r: string)
    ensures NulFree(s) ==> r == s
  {
    if s == "" || s[0] == '\0' then "" else [s[0]] + CString(s[1..])
  }

  // ---------------------------------------------------------------- writing

  const HEX_DIGITS: string := "0123456789abcdef"

  /** `print_string_ptr` on one character. */
  function EscapeChar(ch: char): string {
    match ch
    case '\"' => "\\\""
    case '\\' => "\\\\"
    case _ =>
      if ch as int > 31 then [ch]
      else if ch as int == 8 then "\\b"
      else if ch as int == 12 then "\\f"
      else if ch == '\n' then "\\n"
      else if ch == '\r' then "\\r"
      else if ch == '\t' then "\\t"
      else "\\u00" + [HEX_DIGITS[ch as int / 16], HEX_DIGITS[ch as int % 16]]
  }

  function Escape(s: string): string {
    if s == "" then "" else EscapeChar(s[0]) + Escape(s[1..])
  }

  function PrintString(s: string): string {
    "\"" + Escape(s) + "\""
  }

  // ---------------------------------------------------------------- reading

  function HexValue(ch: char): Option<nat> {
    if '0' <= ch <= '9' then Some(ch as int - '0' as int)
    else if 'A' <= ch <= 'F' then Some(10 + ch as int - 'A' as int)
    else if 'a' <= ch <= 'f' then Some(10 + ch as int - 'a' as int)
    else None
  }

  /** `parse_hex4`: anything but four hexadecimal digits reads as zero. */
  function ParseHex4(c: string, i: nat): (h: nat)
    requires i + 4 <= |c|
    ensures h < 0x10000
    ensures h != 0 ==> forall k :: i <= k < i + 4 ==> HexValue(c[k]).Some?
  {
    var a, b, d, e := HexValue(c[i]), HexValue(c[i + 1]), HexValue(c[i + 2]), HexValue(c[i + 3]);
    if a == None || b == None || d == None || e == None then 0
    else ((a.value * 16 + b.value) * 16 + d.value) * 16 + e.value
  }

  /** The UTF-8 bytes of a code point. */
  function Utf8(cp: nat): (bytes: string)
    requires cp <= 0x10FFFF
    ensures 1 <= |bytes| <= 4
    ensures |bytes| == if cp < 0x80 then 1 else if cp < 0x800 then 2 else if cp < 0x10000 then 3 else 4
  {
    if cp < 0x80 then [cp as char]
    else if cp < 0x800 then [(0xC0 + cp / 64) as char, Continuation(cp)]
    else if cp < 0x10000 then [(0xE0 + cp / 4096) as char, Continuation(cp / 64), Continuation(cp)]
    else [(0xF0 + cp / 262144) as char, Continuation(cp / 4096), Continuation(cp / 64), Continuation(cp)]
  }

  /** The low six bits, marked as a continuation byte. */
  function Continuation(cp: nat): char {
    (0x80 + cp % 64) as char
  }

  /** Reading UTF-8 back, from the marks in the first byte. */
  function Utf8Value(bytes: string): Option<nat> {
    var n := |bytes|;
    if n == 0 || exists k :: 1 <= k < n && !(0x80 <= bytes[k] as int < 0xC0) then None
    else
      var b := bytes[0] as int;
      if n == 1 && b < 0x80 then Some(b)
      else if n == 2 && 0xC0 <= b < 0xE0 then Some((b - 0xC0) * 64 + bytes[1] as int - 0x80)
      else if n == 3 && 0xE0 <= b < 0xF0 then
        Some((b - 0xE0) * 4096 + (bytes[1] as int - 0x80) * 64 + bytes[2] as int - 0x80)
      else if n == 4 && 0xF0 <= b < 0xF8 then
        Some((b - 0xF0) * 262144 + (bytes[1] as int - 0x80) * 4096
             + (bytes[2] as int - 0x80) * 64 + bytes[3] as int - 0x80)
      else None
  }

  /** Every code point is written as UTF-8 that reads back as itself. */
  lemma Utf8RoundTrip(cp: nat)
    requires cp <= 0x10FFFF
    ensures Utf8Value(Utf8(cp)) == Some(cp)
  {
    var bytes := Utf8(cp);
    assert cp == cp / 64 * 64 + cp % 64;
    assert cp / 64 == cp / 4096 * 64 + cp / 64 % 64;
    assert cp / 4096 == cp / 262144 * 64 + cp / 4096 % 64;
    assert forall k :: 1 <= k < |bytes| ==> 0x80 <= bytes[k] as int < 0xC0;
  }

  /** A `\u` sequence: how many characters it takes up (0: malformed) and its code point. */
  datatype Utf16 = Utf16(length: nat, codepoint: nat)

  const MALFORMED: Utf16 := Utf16(0, 0)

  /** `utf16_literal_to_utf8` up to the encoding. */
  function ReadUtf16(c: string, i: nat, end: nat): (r: Utf16)
    requires end <= |c|
    ensures r.length in {0, 6, 12} && r.codepoint <= 0x10FFFF
    ensures i + r.length <= end || r.length == 0
  {
    if end < i + 6 then MALFORMED
    else
      var first := ParseHex4(c, i + 2);
      if 0xDC00 <= first <= 0xDFFF then MALFORMED
      else if 0xD800 <= first <= 0xDBFF then
        if end < i + 12 || c[i + 6] != '\\' || c[i + 7] != 'u' then MALFORMED
        else
          var second := ParseHex4(c, i + 8);
          if second < 0xDC00 || second > 0xDFFF then MALFORMED
          else Utf16(12, 0x10000 + first % 0x400 * 0x400 + second % 0x400)
      else Utf16(6, first)
  }

  /** The one-letter escapes. */
  function SimpleEscape(ch: char): Option<char> {
    match ch
    case 'b' => Some(8 as char)
    case 'f' => Some(12 as char)
    case 'n' => Some('\n')
    case 'r' => Some('\r')
    case 't' => Some('\t')
    case '\"' => Some('\"')
    case '\\' => Some('\\')
    case '/' => Some('/')
    case _ => None
  }

  /** The first pass of `parse_string`: the closing quote. */
  function ClosingQuote(c: string, i: nat): (r: Option<nat>)
    ensures r.Some? ==> i <= r.value < |c| && c[r.value] == '\"'
    decreases |c| - i
  {
    if i >= |c| then None
    else if c[i] == '\"' then Some(i)
    else if c[i] == '\\' then if i + 1 >= |c| then None else ClosingQuote(c, i + 2)
    else ClosingQuote(c, i + 1)
  }

  /** The second pass: the unescaped bytes from `i` on. It may step over the closing quote
      when the two passes disagree about where an escape begins. */
  function Unescape(c: string, i: nat, end: nat): Option<string>
    requires end < |c|
    decreases end - i
  {
    if i >= end then Some("")
    else if c[i] != '\\' then Then([c[i]], Unescape(c, i + 1, end))
    else if c[i + 1] == 'u' then
      var r := ReadUtf16(c, i, end);
      if r.length == 0 then None else Then(Utf8(r.codepoint), Unescape(c, i + r.length, end))
    else
      var e := SimpleEscape(c[i + 1]);
      if e == None then None else Then([e.value], Unescape(c, i + 2, end))
  }

  function Then(bytes: string, rest: Option<string>): Option<string> {
    if rest == None then None else Some(bytes + rest.value)
  }

  datatype Parsed<+T> = Failed | Parsed(value: T, offset: nat)

  /** `parse_string`. */
  function ParseString(c: string, i: nat): (r: Parsed<string>)
    requires i < |c|
    ensures r.Parsed? ==> i < r.offset <= |c| && NulFree(r.value)
  {
    if c[i] != '\"' then Failed
    else
      var end := ClosingQuote(c, i + 1);
      if end == None then Failed
      else
        var bytes := Unescape(c, i + 1, end.value);
        if bytes == None then Failed else
          CStringNulFree(bytes.value);
          Parsed(CString(bytes.value), end.value + 1)
  }

  lemma CStringNulFree(s: string)
    ensures NulFree(CString(s))
  {
  }

  // ---------------------------------------------------------------- the round trip

  lemma TextFits(c: string, i: nat, t: string)
    requires TextAt(c, i, t)
    ensures i + |t| <= |c|
  {
  }

  lemma TextTail(c: string, i: nat, a: string, b: string)
    requires TextAt(c, i, a + b)
    ensures TextAt(c, i, a) && TextAt(c, i + |a|, b)
  {
    assert c[i..i + |a + b|][..|a|] == a;
    assert c[i..i + |a + b|][|a|..] == b;
  }

  lemma EscapedChar(c: string, i: nat, ch: char, end: nat)
    requires TextAt(c, i, EscapeChar(ch)) && i + |EscapeChar(ch)| <= end < |c| && ch != '\0'
    ensures var n := |EscapeChar(ch)|;
            && ClosingQuote(c, i) == ClosingQuote(c, i + n)
            && Unescape(c, i, end) == Then([ch], Unescape(c, i + n, end))
  {
    var t := EscapeChar(ch);
    assert |t| in {1, 2, 6};
    if |t| == 6 {
      EscapedControl(c, i, ch, end);
      hide EscapeChar, ReadUtf16, Utf8, ClosingQuote;
    } else if |t| == 2 {
      EscapedShort(c, i, ch, end);
    } else {
      CharAt(c, i, ch);
    }
  }

  lemma EscapedShort(c: string, i: nat, ch: char, end: nat)
    requires TextAt(c, i, EscapeChar(ch)) && |EscapeChar(ch)| == 2 && i + 2 <= end < |c|
    ensures ClosingQuote(c, i) == ClosingQuote(c, i + 2)
    ensures Unescape(c, i, end) == Then([ch], Unescape(c, i + 2, end))
  {
    var t := EscapeChar(ch);
    assert c[i] == c[i..i + 2][0] == t[0] && c[i + 1] == c[i..i + 2][1] == t[1];
    assert t[0] == '\\' && t[1] != 'u' && SimpleEscape(t[1]) == Some(ch);
    hide EscapeChar, SimpleEscape;
  }

  lemma HexDigitValue(d: nat)
    requires d < 16
    ensures HexValue(HEX_DIGITS[d]) == Some(d)
  {
  }

  lemma EscapedControl(c: string, i: nat, ch: char, end: nat)
    requires TextAt(c, i, EscapeChar(ch)) && |EscapeChar(ch)| == 6 && i + 6 <= end < |c|
    ensures ReadUtf16(c, i, end) == Utf16(6, ch as int)
    ensures Utf8(ch as int) == [ch]
    ensures ClosingQuote(c, i) == ClosingQuote(c, i + 6)
    ensures c[i] == '\\' && c[i + 1] == 'u'
  {
    var t := EscapeChar(ch);
    var n := ch as int;
    assert t == ['\\', 'u', '0', '0', HEX_DIGITS[n / 16], HEX_DIGITS[n % 16]];
    assert c[i..i + 6] == t;
    assert c[i] == t[0] && c[i + 1] == t[1] && c[i + 2] == t[2];
    assert c[i + 3] == t[3] && c[i + 4] == t[4] && c[i + 5] == t[5];
    HexDigitValue(n / 16);
    HexDigitValue(n % 16);
    HexDigitPlain(n / 16);
    HexDigitPlain(n % 16);
    assert ParseHex4(c, i + 2) == n;
    assert ClosingQuote(c, i) == ClosingQuote(c, i + 2) == ClosingQuote(c, i + 3)
        == ClosingQuote(c, i + 4) == ClosingQuote(c, i + 5) == ClosingQuote(c, i + 6);
  }

  lemma HexDigitPlain(d: nat)
    requires d < 16
    ensures HEX_DIGITS[d] != '\"' && HEX_DIGITS[d] != '\\'
  {
  }

  lemma QuoteEnds(c: string, end: nat)
    requires end < |c| && c[end] == '\"'
    ensures ClosingQuote(c, end) == Some(end) && Unescape(c, end, end) == Some("")
  {
  }

  lemma NulFreeTail(s: string)
    requires NulFree(s) && s != ""
    ensures s[0] != '\0' && NulFree(s[1..])
  {
  }

  lemma {:induction false} EscapedText(c: string, i: nat, s: string, end: nat)
    requires NulFree(s) && TextAt(c, i, Escape(s)) && end == i + |Escape(s)|
    requires end < |c| && c[end] == '\"'
    ensures ClosingQuote(c, i) == Some(end)
    ensures Unescape(c, i, end) == Some(s)
    decreases |s|
  {
    hide EscapeChar, ClosingQuote, Unescape, TextAt, NulFree;
    QuoteEnds(c, end);
    if s != "" {
      NulFreeTail(s);
      var t := EscapeChar(s[0]);
      TextTail(c, i, t, Escape(s[1..]));
      EscapedText(c, i + |t|, s[1..], end);
      EscapedChar(c, i, s[0], end);
      assert [s[0]] + s[1..] == s;
    }
  }

  /** A printed string is read back as itself, and exactly it is consumed. */
  lemma StringRoundTrip(c: string, i: nat, s: string)
    requires NulFree(s) && TextAt(c, i, PrintString(s))
    ensures ParseString(c, i) == Parsed(s, i + |PrintString(s)|)
  {
    var e := Escape(s);
    TextTail(c, i, "\"" + e, "\"");
    TextTail(c, i, "\"", e);
    var end := i + 1 + |e|;
    CharAt(c, i, '\"');
    CharAt(c, end, '\"');
    EscapedText(c, i + 1, s, end);
  }

  lemma CharAt(c: string, i: nat, ch: char)
    requires TextAt(c, i, [ch])
    ensures i < |c| && c[i] == ch
  {
    assert c[i..i + 1][0] == ch;
  }
}
