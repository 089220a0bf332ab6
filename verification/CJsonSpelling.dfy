/**
 String literals by the grammar of section 7 of RFC 8259, which lets a string be spelled in many
 ways: each of them is read as that string, and an escape outside the grammar is refused, except
 that a `\u` before anything but four hexadecimal digits is read as NUL.
 */
module CJsonSpellings {
  import opened Wrappers
  import opened CJsonStrings

  // ---------------------------------------------------------------- the grammar

  /** One unit of a string literal. Hexadecimal digits are given with their values. */
  datatype Piece =
    | Plain(ch: char)
    | Short(letter: char)
    | Unit(digits: string, ks: seq<nat>)
    | Pair(high: string, hks: seq<nat>, low: string, lks: seq<nat>)

  function PieceText(p: Piece): string {
    match p
    case Plain(ch) => [ch]
    case Short(letter) => ['\\', letter]
    case Unit(digits, _) => "\\u" + digits
    case Pair(high, _, low, _) => "\\u" + high + ("\\u" + low)
  }

  const LOWER_HEX: string := "0123456789abcdef"
  const UPPER_HEX: string := "0123456789ABCDEF"

  /** Four digits of either letter case, and their values. */
  predicate Hex4(digits: string, ks: seq<nat>) {
    && |digits| == 4 && |ks| == 4
    && HexDigit(digits[0], ks[0]) && HexDigit(digits[1], ks[1])
    && HexDigit(digits[2], ks[2]) && HexDigit(digits[3], ks[3])
  }

  predicate HexDigit(ch: char, k: nat) {
    k < 16 && (ch == LOWER_HEX[k] || ch == UPPER_HEX[k])
  }

  function Number4(ks: seq<nat>): nat
    requires |ks| == 4
  {
    ks[0] * 4096 + ks[1] * 256 + ks[2] * 16 + ks[3]
  }

  /** The shortest UTF-8 form of a code point (section 3 of RFC 3629). */
  predicate IsUtf8(bytes: string, cp: nat) {
    && Utf8Value(bytes) == Some(cp)
    && |bytes| == if cp < 0x80 then 1 else if cp < 0x800 then 2 else if cp < 0x10000 then 3 else 4
  }

  /** The code point of a surrogate pair (section 2.1 of RFC 2781). */
  function Surrogates(h: nat, l: nat): nat
    requires 0xD800 <= h <= 0xDBFF && 0xDC00 <= l <= 0xDFFF
  {
    0x10000 + (h - 0xD800) * 1024 + (l - 0xDC00)
  }

  /** What the unit stands for. */
  predicate Spells(p: Piece, bytes: string) {
    match p
    case Plain(ch) => ch != '\"' && ch != '\\' && bytes == [ch]
    case Short(letter) => ShortSpells(letter, bytes)
    case Unit(digits, ks) =>
      Hex4(digits, ks) && !(0xD800 <= Number4(ks) <= 0xDFFF) && IsUtf8(bytes, Number4(ks))
    case Pair(high, hks, low, lks) =>
      && Hex4(high, hks) && 0xD800 <= Number4(hks) <= 0xDBFF
      && Hex4(low, lks) && 0xDC00 <= Number4(lks) <= 0xDFFF
      && IsUtf8(bytes, Surrogates(Number4(hks), Number4(lks)))
  }

  /** The eight short escapes. */
  predicate ShortSpells(letter: char, bytes: string) {
    || (letter == '\"' && bytes == ['\"'])
    || (letter == '\\' && bytes == ['\\'])
    || (letter == '/' && bytes == ['/'])
    || (letter == 'b' && bytes == [0x08 as char])
    || (letter == 'f' && bytes == [0x0C as char])
    || (letter == 'n' && bytes == [0x0A as char])
    || (letter == 'r' && bytes == [0x0D as char])
    || (letter == 't' && bytes == [0x09 as char])
  }

  datatype Spelled = Spelled(piece: Piece, bytes: string)

  function LiteralText(xs: seq<Spelled>): string {
    if xs == [] then "" else PieceText(xs[0].piece) + LiteralText(xs[1..])
  }

  function LiteralString(xs: seq<Spelled>): string {
    if xs == [] then "" else xs[0].bytes + LiteralString(xs[1..])
  }

  predicate AllSpell(xs: seq<Spelled>) {
    forall k :: 0 <= k < |xs| ==> Spells(xs[k].piece, xs[k].bytes)
  }

  // ---------------------------------------------------------------- reading them

  lemma SixBits(q: int, r: int)
    requires q >= 0 && 0 <= r < 64
    ensures (q * 64 + r) / 64 == q && (q * 64 + r) % 64 == r
  {
  }

  lemma FourParts(a: int, b: int, c: int, d: int, cp: nat)
    requires a >= 0 && 0 <= b < 64 && 0 <= c < 64 && 0 <= d < 64
    requires cp == ((a * 64 + b) * 64 + c) * 64 + d
    ensures cp % 64 == d && cp / 64 == (a * 64 + b) * 64 + c
    ensures cp / 64 % 64 == c && cp / 4096 == a * 64 + b
    ensures cp / 4096 % 64 == b && cp / 262144 == a
  {
    SixBits((a * 64 + b) * 64 + c, d);
    SixBits(a * 64 + b, c);
    SixBits(a, b);
    assert cp / 4096 == cp / 64 / 64 && cp / 262144 == cp / 4096 / 64;
  }

  /** The marks of the bytes taken off. */
  lemma ShortForm(bytes: string, cp: nat)
    requires cp <= 0x10FFFF && IsUtf8(bytes, cp)
    ensures bytes[0] as int >= (match |bytes| case 2 => 0xC0 case 3 => 0xE0 case 4 => 0xF0 case _ => 0)
    ensures forall k :: 1 <= k < |bytes| ==> 0x80 <= bytes[k] as int < 0xC0
    ensures match |bytes|
            case 2 => cp == (bytes[0] as int - 0xC0) * 64 + bytes[1] as int - 0x80
            case 3 => cp == ((bytes[0] as int - 0xE0) * 64 + (bytes[1] as int - 0x80)) * 64 + bytes[2] as int - 0x80
            case 4 => cp == (((bytes[0] as int - 0xF0) * 64 + (bytes[1] as int - 0x80)) * 64
                             + (bytes[2] as int - 0x80)) * 64 + bytes[3] as int - 0x80
            case _ => cp == bytes[0] as int
  {
  }

  /** There is only one shortest form. */
  lemma Utf8Unique(bytes: string, cp: nat)
    requires cp <= 0x10FFFF && IsUtf8(bytes, cp)
    ensures bytes == Utf8(cp)
  {
    ShortForm(bytes, cp);
    hide Utf8Value;
    var n := |bytes|;
    if n == 2 {
      FourParts(0, 0, bytes[0] as int - 0xC0, bytes[1] as int - 0x80, cp);
    } else if n == 3 {
      FourParts(0, bytes[0] as int - 0xE0, bytes[1] as int - 0x80, bytes[2] as int - 0x80, cp);
    } else if n == 4 {
      FourParts(bytes[0] as int - 0xF0, bytes[1] as int - 0x80, bytes[2] as int - 0x80, bytes[3] as int - 0x80, cp);
    }
  }

  lemma HexDigitRead(ch: char, k: nat)
    requires HexDigit(ch, k)
    ensures HexValue(ch) == Some(k) && ch != '\"' && ch != '\\'
  {
  }

  lemma Hex4Read(c: string, i: nat, digits: string, ks: seq<nat>)
    requires TextAt(c, i, digits) && Hex4(digits, ks)
    ensures i + 4 <= |c| && ParseHex4(c, i) == Number4(ks)
    ensures forall j :: i <= j < i + 4 ==> c[j] != '\"' && c[j] != '\\'
  {
    assert c[i..i + 4] == digits;
    assert c[i] == digits[0] && c[i + 1] == digits[1] && c[i + 2] == digits[2] && c[i + 3] == digits[3];
    HexDigitRead(c[i], ks[0]);
    HexDigitRead(c[i + 1], ks[1]);
    HexDigitRead(c[i + 2], ks[2]);
    HexDigitRead(c[i + 3], ks[3]);
  }

  /** The first pass steps over a `\u` and four digits. */
  lemma QuoteBehindUnit(c: string, i: nat, digits: string, ks: seq<nat>)
    requires TextAt(c, i, "\\u" + digits) && Hex4(digits, ks)
    ensures i + 6 <= |c| && c[i] == '\\' && c[i + 1] == 'u' && |digits| == 4 && TextAt(c, i + 2, digits)
    ensures ClosingQuote(c, i) == ClosingQuote(c, i + 6)
  {
    TextTail(c, i, "\\u", digits);
    assert c[i..i + 2] == "\\u";
    assert c[i] == c[i..i + 2][0] && c[i + 1] == c[i..i + 2][1];
    Hex4Read(c, i + 2, digits, ks);
    assert ClosingQuote(c, i) == ClosingQuote(c, i + 2) == ClosingQuote(c, i + 3)
        == ClosingQuote(c, i + 4) == ClosingQuote(c, i + 5) == ClosingQuote(c, i + 6);
  }

  /** Both passes of `parse_string` take any unit for what it stands for. */
  lemma PieceRead(c: string, i: nat, p: Piece, bytes: string, end: nat)
    requires Spells(p, bytes) && TextAt(c, i, PieceText(p)) && i + |PieceText(p)| <= end < |c|
    ensures var n := |PieceText(p)|;
            && ClosingQuote(c, i) == ClosingQuote(c, i + n)
            && Unescape(c, i, end) == Then(bytes, Unescape(c, i + n, end))
  {
    match p
    case Plain(ch) => CharAt(c, i, ch);
    case Short(letter) => ShortRead(c, i, letter, bytes, end);
    case Unit(digits, ks) => UnitRead(c, i, digits, ks, bytes, end);
    case Pair(high, hks, low, lks) => PairRead(c, i, high, hks, low, lks, bytes, end);
  }

  lemma ShortRead(c: string, i: nat, letter: char, bytes: string, end: nat)
    requires ShortSpells(letter, bytes) && TextAt(c, i, ['\\', letter]) && i + 2 <= end < |c|
    ensures ClosingQuote(c, i) == ClosingQuote(c, i + 2)
    ensures Unescape(c, i, end) == Then(bytes, Unescape(c, i + 2, end))
  {
    assert c[i] == c[i..i + 2][0] && c[i + 1] == c[i..i + 2][1];
  }

  lemma UnitRead(c: string, i: nat, digits: string, ks: seq<nat>, bytes: string, end: nat)
    requires Hex4(digits, ks) && !(0xD800 <= Number4(ks) <= 0xDFFF) && IsUtf8(bytes, Number4(ks))
    requires TextAt(c, i, "\\u" + digits) && i + 6 <= end < |c|
    ensures ClosingQuote(c, i) == ClosingQuote(c, i + 6)
    ensures Unescape(c, i, end) == Then(bytes, Unescape(c, i + 6, end))
  {
    QuoteBehindUnit(c, i, digits, ks);
    Hex4Read(c, i + 2, digits, ks);
    assert Number4(ks) < 0x10000;
    Utf8Unique(bytes, Number4(ks));
    hide ParseHex4, ClosingQuote, Utf8, IsUtf8, Hex4;
    assert ReadUtf16(c, i, end) == Utf16(6, Number4(ks));
  }

  lemma PairRead(c: string, i: nat, high: string, hks: seq<nat>, low: string, lks: seq<nat>, bytes: string, end: nat)
    requires Spells(Pair(high, hks, low, lks), bytes)
    requires TextAt(c, i, "\\u" + high + ("\\u" + low)) && i + 12 <= end < |c|
    ensures ClosingQuote(c, i) == ClosingQuote(c, i + 12)
    ensures Unescape(c, i, end) == Then(bytes, Unescape(c, i + 12, end))
  {
    PairUnits(c, i, high, hks, low, lks, end);
    Utf8Unique(bytes, Surrogates(Number4(hks), Number4(lks)));
    hide ReadUtf16, ClosingQuote, Utf8, IsUtf8, Hex4, Number4, Surrogates, TextAt;
  }

  lemma PairUnits(c: string, i: nat, high: string, hks: seq<nat>, low: string, lks: seq<nat>, end: nat)
    requires Hex4(high, hks) && 0xD800 <= Number4(hks) <= 0xDBFF
    requires Hex4(low, lks) && 0xDC00 <= Number4(lks) <= 0xDFFF
    requires TextAt(c, i, "\\u" + high + ("\\u" + low)) && i + 12 <= end < |c|
    ensures c[i] == '\\' && c[i + 1] == 'u'
    ensures ClosingQuote(c, i) == ClosingQuote(c, i + 12)
    ensures ReadUtf16(c, i, end) == Utf16(12, Surrogates(Number4(hks), Number4(lks)))
  {
    hide ParseHex4, ClosingQuote, HexDigit, Number4, TextAt, Surrogates;
    TextTail(c, i, "\\u" + high, "\\u" + low);
    QuoteBehindUnit(c, i, high, hks);
    QuoteBehindUnit(c, i + 6, low, lks);
    Hex4Read(c, i + 2, high, hks);
    Hex4Read(c, i + 8, low, lks);
    SurrogateBits(Number4(hks), Number4(lks));
  }

  lemma SurrogateBits(h: nat, l: nat)
    requires 0xD800 <= h <= 0xDBFF && 0xDC00 <= l <= 0xDFFF
    ensures 0x10000 + h % 0x400 * 0x400 + l % 0x400 == Surrogates(h, l)
  {
  }

  lemma {:induction false} LiteralRead(c: string, i: nat, xs: seq<Spelled>, end: nat)
    requires AllSpell(xs) && TextAt(c, i, LiteralText(xs)) && i + |LiteralText(xs)| <= end < |c|
    ensures var p := i + |LiteralText(xs)|;
            && ClosingQuote(c, i) == ClosingQuote(c, p)
            && Unescape(c, i, end) == Then(LiteralString(xs), Unescape(c, p, end))
    decreases |xs|
  {
    hide Spells, PieceText, Unescape, ClosingQuote, TextAt, Then;
    if xs != [] {
      var t := PieceText(xs[0].piece);
      TextTail(c, i, t, LiteralText(xs[1..]));
      LiteralRead(c, i + |t|, xs[1..], end);
      PieceRead(c, i, xs[0].piece, xs[0].bytes, end);
      ThenThen(xs[0].bytes, LiteralString(xs[1..]), Unescape(c, i + |LiteralText(xs)|, end));
    } else {
      ThenNothing(Unescape(c, i, end));
    }
  }

  lemma ThenThen(a: string, b: string, rest: Option<string>)
    ensures Then(a, Then(b, rest)) == Then(a + b, rest)
  {
    if rest.Some? {
      assert a + (b + rest.value) == (a + b) + rest.value;
    }
  }

  lemma ThenNothing(rest: Option<string>)
    ensures Then("", rest) == rest
  {
    if rest.Some? {
      assert "" + rest.value == rest.value;
    }
  }

  /** The string that is read is what the pieces stand for, up to its first NUL, and the literal
      is wholly consumed. */
  lemma SpellingRead(c: string, i: nat, xs: seq<Spelled>)
    requires AllSpell(xs) && TextAt(c, i, "\"" + LiteralText(xs) + "\"")
    ensures ParseString(c, i) == Parsed(CString(LiteralString(xs)), i + |LiteralText(xs)| + 2)
    ensures NulFree(LiteralString(xs)) ==>
              ParseString(c, i) == Parsed(LiteralString(xs), i + |LiteralText(xs)| + 2)
  {
    hide AllSpell, TextAt, LiteralText, LiteralString;
    var t := LiteralText(xs);
    var end := i + 1 + |t|;
    TextTail(c, i, "\"" + t, "\"");
    TextTail(c, i, "\"", t);
    CharAt(c, i, '\"');
    CharAt(c, end, '\"');
    LiteralRead(c, i + 1, xs, end);
    assert LiteralString(xs) + "" == LiteralString(xs);
  }

  // ---------------------------------------------------------------- refusals

  /** A hexadecimal digit is read as its value, and nothing else is. */
  lemma HexValueIff(ch: char, k: nat)
    ensures HexValue(ch) == Some(k) <==> HexDigit(ch, k)
  {
  }

  ghost predicate IsHex4(digits: string) {
    exists ks :: Hex4(digits, ks)
  }

  /** Four hexadecimal digits are read as their number, anything else as zero. */
  lemma Hex4OrZero(c: string, i: nat)
    requires i + 4 <= |c|
    ensures (exists ks :: Hex4(c[i..i + 4], ks) && ParseHex4(c, i) == Number4(ks))
            || (ParseHex4(c, i) == 0 && !IsHex4(c[i..i + 4]))
  {
    var t := c[i..i + 4];
    forall k: nat
      ensures HexValue(t[0]) == Some(k) <==> HexDigit(t[0], k)
      ensures HexValue(t[1]) == Some(k) <==> HexDigit(t[1], k)
      ensures HexValue(t[2]) == Some(k) <==> HexDigit(t[2], k)
      ensures HexValue(t[3]) == Some(k) <==> HexDigit(t[3], k)
    {
      HexValueIff(t[0], k);
      HexValueIff(t[1], k);
      HexValueIff(t[2], k);
      HexValueIff(t[3], k);
    }
    hide HexValue, HexDigit, Number4;
    if HexValue(t[0]).Some? && HexValue(t[1]).Some? && HexValue(t[2]).Some? && HexValue(t[3]).Some? {
      var ks := [HexValue(t[0]).value, HexValue(t[1]).value, HexValue(t[2]).value, HexValue(t[3]).value];
      assert Hex4(t, ks);
      Hex4Read(c, i, t, ks);
    }
  }

  ghost predicate StartsUnit(c: string, p: nat) {
    exists piece, bytes :: Spells(piece, bytes) && TextAt(c, p, PieceText(piece))
  }

  /** At `p` stands a backslash that begins no unit of the grammar, nor a `\u` that lacks its
      digits. */
  ghost predicate BadEscape(c: string, p: nat) {
    && p < |c| && c[p] == '\\'
    && !StartsUnit(c, p)
    && !(TextAt(c, p, "\\u") && p + 6 <= |c| && !IsHex4(c[p + 2..p + 6]))
  }

  lemma IsUtf8Of(cp: nat)
    requires cp <= 0x10FFFF
    ensures IsUtf8(Utf8(cp), cp)
  {
    Utf8RoundTrip(cp);
  }

  lemma UnitAt(c: string, p: nat)
    requires p + 6 <= |c| && c[p] == '\\' && c[p + 1] == 'u'
    ensures TextAt(c, p, "\\u") && TextAt(c, p, "\\u" + c[p + 2..p + 6])
  {
    assert c[p..p + 2] == "\\u";
    assert c[p..p + 6] == "\\u" + c[p + 2..p + 6];
  }

  lemma ShortBad(c: string, p: nat)
    requires BadEscape(c, p) && p + 1 < |c| && c[p + 1] != 'u'
    ensures SimpleEscape(c[p + 1]) == None
  {
    var e := SimpleEscape(c[p + 1]);
    if e.Some? {
      assert c[p..p + 2] == PieceText(Short(c[p + 1]));
      assert Spells(Short(c[p + 1]), [e.value]);
    }
  }

  /** Of the units that begin with `\u`, those not in the grammar are malformed. */
  lemma UnitBad(c: string, p: nat, end: nat)
    requires BadEscape(c, p) && p + 6 <= end < |c| && c[p + 1] == 'u'
    ensures ReadUtf16(c, p, end) == MALFORMED
  {
    hide Spells, Number4, HexDigit, HexValue, IsUtf8, Surrogates, ParseHex4, TextAt, PieceText;
    UnitAt(c, p);
    Hex4OrZero(c, p + 2);
    var digits := c[p + 2..p + 6];
    var ks :| Hex4(digits, ks) && ParseHex4(c, p + 2) == Number4(ks);
    if !(0xD800 <= Number4(ks) <= 0xDFFF) {
      UnitHere(c, p, ks);
    } else if ReadUtf16(c, p, end) != MALFORMED {
      UnitAt(c, p + 6);
      Hex4OrZero(c, p + 8);
      var lks :| Hex4(c[p + 8..p + 12], lks) && ParseHex4(c, p + 8) == Number4(lks);
      PairHere(c, p, ks, lks);
    }
  }

  lemma UnitHere(c: string, p: nat, ks: seq<nat>)
    requires p + 6 <= |c| && TextAt(c, p, "\\u" + c[p + 2..p + 6])
    requires Hex4(c[p + 2..p + 6], ks) && !(0xD800 <= Number4(ks) <= 0xDFFF)
    ensures StartsUnit(c, p)
  {
    IsUtf8Of(Number4(ks));
    assert Spells(Unit(c[p + 2..p + 6], ks), Utf8(Number4(ks)));
  }

  lemma PairHere(c: string, p: nat, hks: seq<nat>, lks: seq<nat>)
    requires p + 12 <= |c| && TextAt(c, p, "\\u" + c[p + 2..p + 6]) && TextAt(c, p + 6, "\\u" + c[p + 8..p + 12])
    requires Hex4(c[p + 2..p + 6], hks) && 0xD800 <= Number4(hks) <= 0xDBFF
    requires Hex4(c[p + 8..p + 12], lks) && 0xDC00 <= Number4(lks) <= 0xDFFF
    ensures StartsUnit(c, p)
  {
    var cp := Surrogates(Number4(hks), Number4(lks));
    IsUtf8Of(cp);
    var pair := Pair(c[p + 2..p + 6], hks, c[p + 8..p + 12], lks);
    assert Spells(pair, Utf8(cp));
    assert c[p..p + 12] == c[p..p + 6] + c[p + 6..p + 12];
    assert TextAt(c, p, PieceText(pair));
  }

  lemma BadFails(c: string, p: nat, end: nat)
    requires BadEscape(c, p) && p + 2 <= end < |c|
    ensures Unescape(c, p, end) == None
  {
    if c[p + 1] != 'u' {
      ShortBad(c, p);
    } else if p + 6 <= end {
      UnitBad(c, p, end);
    }
  }

  /** A backslash that begins no unit of the grammar: the literal is refused. */
  lemma EscapeRefused(c: string, i: nat, xs: seq<Spelled>)
    requires AllSpell(xs) && TextAt(c, i, "\"" + LiteralText(xs)) && BadEscape(c, i + 1 + |LiteralText(xs)|)
    ensures ParseString(c, i).Failed?
  {
    hide AllSpell, LiteralText, LiteralString, Spells, Unescape;
    var t := LiteralText(xs);
    var p := i + 1 + |t|;
    TextTail(c, i, "\"", t);
    CharAt(c, i, '\"');
    LiteralRead(c, i + 1, xs, p);
    if ClosingQuote(c, p).Some? {
      var end := ClosingQuote(c, p).value;
      LiteralRead(c, i + 1, xs, end);
      BadFails(c, p, end);
    }
  }

  /** But a `\u` without its four digits is read as NUL, where a string ends. */
  lemma BadDigitsRead(c: string, i: nat, end: nat)
    requires i + 6 <= end < |c| && TextAt(c, i, "\\u") && !IsHex4(c[i + 2..i + 6])
    ensures Unescape(c, i, end) == Then("\0", Unescape(c, i + 6, end))
  {
    assert c[i] == c[i..i + 2][0] && c[i + 1] == c[i..i + 2][1];
    Hex4OrZero(c, i + 2);
    assert ReadUtf16(c, i, end) == Utf16(6, 0);
  }
}
