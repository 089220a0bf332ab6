/**
 Numbers by the grammar of section 6 of RFC 8259: digits with an optional minus, an optional
 fraction and an optional exponent are read as the decimal number they denote.
 */
module CJsonDecimals {
  import opened CJsonStrings
  import opened CJsonNumbers
  import opened CJson
  import opened CJsonRoundTrip

  // ---------------------------------------------------------------- the grammar

  /** `mark` is the `e` and its sign, and empty if there is no exponent. */
  datatype Decimal = Decimal(minus: bool, whole: string, fraction: string, mark: string, exponent: string)

  predicate AllDigits(t: string) {
    forall k :: 0 <= k < |t| ==> '0' <= t[k] <= '9'
  }

  predicate IsMark(mark: string) {
    mark in {"", "e", "E", "e+", "E+", "e-", "E-"}
  }

  /** The code does not mind leading zeros. */
  predicate Proper(n: Decimal) {
    && n.whole != "" && AllDigits(n.whole) && AllDigits(n.fraction) && AllDigits(n.exponent)
    && IsMark(n.mark) && (n.mark == "" <==> n.exponent == "")
  }

  function Sign(n: Decimal): string {
    if n.minus then "-" else ""
  }

  function Point(n: Decimal): string {
    if n.fraction == "" then "" else "." + n.fraction
  }

  function DecimalText(n: Decimal): string {
    Sign(n) + (n.whole + (Point(n) + (n.mark + n.exponent)))
  }

  // ---------------------------------------------------------------- what it denotes

  function Digit(ch: char): int {
    ch as int - '0' as int
  }

  /** Ten to the power `k`. */
  function Tenfold(k: nat): nat {
    if k == 0 then 1 else 10 * Tenfold(k - 1)
  }

  /** Digits before the point, by their places. */
  function Units(d: string): int {
    if d == "" then 0 else Digit(d[0]) * Tenfold(|d| - 1) + Units(d[1..])
  }

  /** Digits behind the point: tenths, hundredths and so on. */
  function Parts(d: string): real {
    if d == "" then 0.0 else (Digit(d[0]) as real + Parts(d[1..])) / 10.0
  }

  /** The point moved by `e` places. */
  function Shift(x: real, e: int): real
    decreases if e < 0 then -e else e
  {
    if e == 0 then x else if e > 0 then Shift(x * 10.0, e - 1) else Shift(x / 10.0, e + 1)
  }

  function Places(n: Decimal): int {
    if n.mark in {"e-", "E-"} then -Units(n.exponent) else Units(n.exponent)
  }

  function DecimalValue(n: Decimal): real {
    var x := Shift(Units(n.whole) as real + Parts(n.fraction), Places(n));
    if n.minus then -x else x
  }

  // ---------------------------------------------------------------- arithmetic

  lemma {:induction false} DigitsLead(a: char, d: string)
    ensures DigitsValue([a] + d) == Digit(a) * Tenfold(|d|) + DigitsValue(d)
    decreases |d|
  {
    var t := [a] + d;
    if d == "" {
      assert t[..|t| - 1] == "";
    } else {
      assert t[..|t| - 1] == [a] + d[..|d| - 1];
      DigitsLead(a, d[..|d| - 1]);
      assert Digit(a) * Tenfold(|d| - 1) * 10 == Digit(a) * Tenfold(|d|);
    }
  }

  lemma {:induction false} UnitsRead(d: string)
    ensures DigitsValue(d) == Units(d)
    decreases |d|
  {
    if d != "" {
      assert d == [d[0]] + d[1..];
      DigitsLead(d[0], d[1..]);
      UnitsRead(d[1..]);
    }
  }

  lemma Pow10Step(e: int)
    ensures Pow10(e + 1) == 10.0 * Pow10(e)
  {
  }

  lemma {:induction false} ShiftScales(x: real, e: int)
    ensures Shift(x, e) == x * Pow10(e)
    decreases if e < 0 then -e else e
  {
    if e > 0 {
      ShiftScales(x * 10.0, e - 1);
    } else if e < 0 {
      ShiftScales(x / 10.0, e + 1);
    }
  }

  function Times(x: real, y: real): real {
    x * y
  }

  lemma ScaleStep(v: real, a: real, f: real, p: real)
    ensures Times(v * 10.0 + a + f, p) == Times(v + (a + f) / 10.0, 10.0 * p)
  {
  }

  lemma OneDigitOver(w: string, f: string)
    requires f != ""
    ensures w + [f[0]] + f[1..] == w + f
    ensures DigitsValue(w + [f[0]]) as real == DigitsValue(w) as real * 10.0 + Digit(f[0]) as real
    ensures Parts(f) == (Digit(f[0]) as real + Parts(f[1..])) / 10.0
  {
    assert (w + [f[0]])[..|w|] == w;
  }

  /** The point behind `w` in the digits `w + f`. */
  lemma {:induction false} PointRead(w: string, f: string, e: int)
    ensures Times(DigitsValue(w + f) as real, Pow10(e - |f|)) == Times(DigitsValue(w) as real + Parts(f), Pow10(e))
    decreases |f|
  {
    hide DigitsValue, Pow10, Digit, Times;
    if f == "" {
      assert w + f == w;
    } else {
      hide Parts;
      PointRead(w + [f[0]], f[1..], e - 1);
      OneDigitOver(w, f);
      Pow10Step(e - 1);
      ScaleStep(DigitsValue(w) as real, Digit(f[0]) as real, Parts(f[1..]), Pow10(e - 1));
      assert e - 1 - |f[1..]| == e - |f|;
    }
  }

  lemma MantissaRead(w: string, f: string, e: int)
    ensures Times(DigitsValue(w + f) as real, Pow10(e - |f|)) == Shift(Units(w) as real + Parts(f), e)
  {
    hide DigitsValue, Parts, Pow10, Units, Shift;
    PointRead(w, f, e);
    UnitsRead(w);
    ShiftScales(Units(w) as real + Parts(f), e);
  }

  // ---------------------------------------------------------------- the text

  lemma {:induction false} DigitRun(t: string, i: nat, e: nat)
    requires i <= e <= |t| && AllDigits(t[i..e]) && (e < |t| ==> !('0' <= t[e] <= '9'))
    ensures DigitEnd(t, i) == e
    decreases e - i
  {
    if i < e {
      assert t[i] == t[i..e][0];
      assert t[i + 1..e] == t[i..e][1..];
      DigitRun(t, i + 1, e);
    }
  }

  lemma Cut(t: string, s: nat, x: string, y: string)
    requires s <= |t| && t[s..] == x + y
    ensures s + |x| <= |t| && t[s..s + |x|] == x && t[s + |x|..] == y
    ensures |t| - s == |x| + |y| && (y != "" ==> t[s + |x|] == y[0])
  {
    assert t[s..s + |x|] == t[s..][..|x|];
    assert t[s + |x|..] == t[s..][|x|..];
  }

  lemma MarkShape(mark: string)
    requires IsMark(mark)
    ensures mark != "" ==> |mark| <= 2 && mark[0] in {'e', 'E'} && (|mark| == 2 ==> mark[1] in {'+', '-'})
    ensures mark in {"e-", "E-"} <==> |mark| == 2 && mark[1] == '-'
  {
  }

  lemma ExponentRead(t: string, b: nat, mark: string, exponent: string)
    requires b <= |t| && t[b..] == mark + exponent && AllDigits(exponent)
    requires IsMark(mark) && (mark == "" <==> exponent == "")
    ensures Exponent(t, b) == (if mark in {"e-", "E-"} then -Units(exponent) else Units(exponent), |t|)
  {
    MarkShape(mark);
    if mark != "" {
      hide IsMark, Units, DigitsValue, DigitEnd;
      var x := b + |mark|;
      Cut(t, b, mark, exponent);
      assert t[b] == t[b..x][0] && (|mark| == 2 ==> t[b + 1] == t[b..x][1]);
      assert t[x] == exponent[0] && t[x..|t|] == exponent;
      DigitRun(t, x, |t|);
      UnitsRead(exponent);
    }
  }

  lemma ProperParts(n: Decimal)
    requires Proper(n)
    ensures n.whole != "" && '0' <= n.whole[0] <= '9' && AllDigits(n.whole)
    ensures AllDigits(n.fraction) && AllDigits(n.exponent)
    ensures IsMark(n.mark) && (n.mark == "" <==> n.exponent == "")
  {
  }

  lemma MarkHead(mark: string, exponent: string)
    requires IsMark(mark) && (mark == "" <==> exponent == "")
    ensures mark + exponent != "" ==> (mark + exponent)[0] in {'e', 'E'}
  {
  }

  lemma PointHead(n: Decimal)
    ensures Point(n) != "" ==> Point(n)[0] == '.'
    ensures Point(n) == "" <==> n.fraction == ""
  {
  }

  /** Where the pieces are. */
  lemma Pieces(n: Decimal, t: string, s: nat, a: nat, b: nat)
    requires Proper(n) && t == Sign(n) + (n.whole + (Point(n) + (n.mark + n.exponent)))
    requires s == |Sign(n)| && a == s + |n.whole| && b == a + |Point(n)|
    ensures b <= |t| && t[s..a] == n.whole && t[a..b] == Point(n) && t[b..] == n.mark + n.exponent
    ensures t != "" && t[0] == if n.minus then '-' else n.whole[0]
    ensures a < |t| ==> t[a] in {'.', 'e', 'E'} && (t[a] == '.' <==> n.fraction != "")
    ensures b < |t| ==> t[b] in {'e', 'E'}
  {
    hide *;
    ProperParts(n);
    MarkHead(n.mark, n.exponent);
    PointHead(n);
    var end := n.mark + n.exponent;
    Cut(t, s, n.whole, Point(n) + end) by {
      Cut(t, 0, Sign(n), n.whole + (Point(n) + end)) by {
        assert t[0..] == t;
      }
    }
    Cut(t, a, Point(n), end);
    SignHead(n, n.whole + (Point(n) + end));
  }

  lemma SignHead(n: Decimal, rest: string)
    requires n.whole != "" && n.whole <= rest
    ensures (Sign(n) + rest)[0] == if n.minus then '-' else n.whole[0]
  {
  }

  lemma PointPieces(n: Decimal, t: string, a: nat, b: nat)
    requires AllDigits(n.fraction) && a <= b <= |t| && t[a..b] == Point(n)
    requires a < |t| ==> (t[a] == '.' <==> n.fraction != "")
    requires b < |t| ==> t[b] in {'e', 'E'}
    ensures b == if a < |t| && t[a] == '.' then DigitEnd(t, a + 1) else a
    ensures (if b > a then t[a + 1..b] else "") == n.fraction
  {
    if n.fraction != "" {
      assert t[a + 1..b] == t[a..b][1..] == n.fraction;
      DigitRun(t, a + 1, b);
    }
  }

  /** `strtod` where the pieces are known. */
  lemma ReadPieces(t: string, s: nat, a: nat, b: nat, fraction: string)
    requires t != "" && s == (if t[0] in {'+', '-'} then 1 else 0) && a == DigitEnd(t, s) && s < a
    requires b == if a < |t| && t[a] == '.' then DigitEnd(t, a + 1) else a
    requires fraction == if b > a then t[a + 1..b] else ""
    ensures var e := Exponent(t, b);
            var x := Times(DigitsValue(t[s..a] + fraction) as real, Pow10(e.0 - |fraction|));
            ReadDouble(t) == Strtod(if t[0] == '-' then -x else x, e.1)
  {
    hide DigitEnd, Exponent, DigitsValue, Pow10;
  }

  /** The text of a decimal number is read whole, as that number. */
  lemma DecimalIsRead(n: Decimal)
    requires Proper(n)
    ensures ReadDouble(DecimalText(n)) == Strtod(DecimalValue(n), |DecimalText(n)|)
  {
    var t := DecimalText(n);
    var s := |Sign(n)|;
    var a := s + |n.whole|;
    var b := a + |Point(n)|;
    hide Proper, DigitEnd, Exponent, DigitsValue, Pow10, Shift, Units, Parts, Point, AllDigits, IsMark, Times,
         ReadDouble;
    ProperParts(n);
    Pieces(n, t, s, a, b);
    hide DecimalText;
    DigitRun(t, s, a);
    PointPieces(n, t, a, b);
    ExponentRead(t, b, n.mark, n.exponent);
    MantissaRead(n.whole, n.fraction, Places(n));
    ReadPieces(t, s, a, b, n.fraction);
  }

  lemma DecimalChars(n: Decimal)
    requires Proper(n)
    ensures forall k :: 0 <= k < |DecimalText(n)| ==> NumberChar(DecimalText(n)[k])
    ensures var t := DecimalText(n); t != "" && (t[0] == '-' || '0' <= t[0] <= '9')
  {
    ProperParts(n);
    MarkShape(n.mark);
    hide Proper, IsMark;
    var end := n.mark + n.exponent;
    assert forall k :: 0 <= k < |end| ==> NumberChar(end[k]);
    assert forall k :: 0 <= k < |Point(n) + end| ==> NumberChar((Point(n) + end)[k]);
    SignHead(n, n.whole + (Point(n) + end));
  }

  /** `parse_value` on a decimal number of at most 63 characters. */
  lemma DecimalRead(c: string, i: nat, n: Decimal, d: nat)
    requires Proper(n) && |DecimalText(n)| <= NUMBER_ROOM
    requires TextAt(c, i, DecimalText(n)) && NumberStops(c, i + |DecimalText(n)|)
    ensures var x := DecimalValue(n);
            ParseValue(c, i, d) == Parsed(Number(Saturated(x), x), i + |DecimalText(n)|)
  {
    hide ReadDouble, Saturated, NumberSpan, DecimalText, DecimalValue;
    var t := DecimalText(n);
    DecimalChars(n);
    HeadAt(c, i, t);
    WordsApart(c, i, t[0]);
    SpanOfText(c, i, t);
    DecimalIsRead(n);
  }
}
